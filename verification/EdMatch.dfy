/** The editor's matcher: compiled patterns run against a line. */
module EdMatch {
  import opened Patterns

  const NBRA := 5
  const CBRA := 1
  const CCHR := 2
  const CDOT := 4
  const CCL := 6
  const NCCL := 8
  const CDOL := 10
  const CEOF := 11
  const CKET := 12
  const STAR := 1

  // ----- compiled patterns

  function AtomCode(a: Atom, star: int): (s: seq<int>)
    ensures |s| >= 1
  {
    match a
    case Chr(c) => [CCHR + star, c]
    case Dot => [CDOT + star]
    case Class(members, not) => [(if not then NCCL else CCL) + star, |members| + 1] + members
  }

  /** One item as `compile` leaves it. */
  function ItemCode(it: Item): (s: seq<int>)
    ensures |s| >= 1
  {
    match it
    case One(a) => AtomCode(a, 0)
    case Star(a) => AtomCode(a, STAR)
    case Dol => [CDOL]
    case Bra(k) => [CBRA, k]
    case Ket(k) => [CKET, k]
  }

  function Code(p: seq<Item>): (s: seq<int>)
    ensures |s| >= 1
  {
    if p == [] then [CEOF] else ItemCode(p[0]) + Code(p[1..])
  }

  /** From `ep` on the buffer holds the rest of the pattern. */
  ghost predicate Holds(expbuf: seq<int>, ep: nat, p: seq<Item>) {
    ep + |Code(p)| <= |expbuf| && expbuf[ep..ep+|Code(p)|] == Code(p)
  }

  lemma HoldsItem(expbuf: seq<int>, ep: nat, p: seq<Item>)
    requires Holds(expbuf, ep, p) && p != []
    ensures ep + |ItemCode(p[0])| < |expbuf| && expbuf[ep..ep+|ItemCode(p[0])|] == ItemCode(p[0])
    ensures forall x :: 0 <= x < |ItemCode(p[0])| ==> expbuf[ep+x] == ItemCode(p[0])[x]
    ensures Holds(expbuf, ep + |ItemCode(p[0])|, p[1..])
  {
    var a, b := ItemCode(p[0]), Code(p[1..]);
    assert Code(p) == a + b;
    hide Code, ItemCode;
    InTwo(expbuf, ep, a, b);
  }

  lemma InTwo(s: seq<int>, i: nat, a: seq<int>, b: seq<int>)
    requires i + |a| + |b| <= |s| && s[i..i+|a|+|b|] == a + b
    ensures s[i..i+|a|] == a && s[i+|a|..i+|a|+|b|] == b
    ensures forall x :: 0 <= x < |a| ==> s[i+x] == a[x]
  {
    forall x | 0 <= x < |a| + |b| ensures s[i+x] == (a + b)[x] {
      assert s[i..i+|a|+|b|][x] == s[i+x];
    }
    forall x | 0 <= x < |b| ensures s[i+|a|..i+|a|+|b|][x] == b[x] {
      assert s[i+(|a|+x)] == (a + b)[|a|+x];
    }
    forall x | 0 <= x < |a| ensures s[i..i+|a|][x] == a[x] {
      assert s[i+x] == (a + b)[x];
    }
    assert s[i..i+|a|] == a;
    assert s[i+|a|..i+|a|+|b|] == b;
  }

  /** A pattern that can be compiled: the classes have room for their count, and no
      two marks have the same number. */
  ghost predicate Proper(p: seq<Item>) {
    && (forall n :: 0 <= n < |p| && (p[n].Bra? || p[n].Ket?) ==> p[n].k < NBRA)
    && (forall m, n :: 0 <= m < n < |p| && p[m].Bra? && p[n].Bra? ==> p[m].k != p[n].k)
    && (forall m, n :: 0 <= m < n < |p| && p[m].Ket? && p[n].Ket? ==> p[m].k != p[n].k)
  }

  class Matcher {
    const line: seq<Char>
    const expbuf: seq<int>
    const circfl: bool
    ghost const p: seq<Item>
    const braslist: array<int>
    const braelist: array<int>
    var loc1: int
    var loc2: int
    var locs: int

    ghost predicate Valid()
      reads braslist, braelist
    {
      && braslist.Length == braelist.Length == NBRA && braslist != braelist
      && Holds(expbuf, 0, p) && Proper(p)
    }

    /** The character at a place of the line, 0 at its end. */
    function CharAt(lp: nat): int {
      if lp < |line| then line[lp] else 0
    }

    /** `cclass`: whether a character is of a set, or is not. */
    method Cclass(ep: nat, c: int, af: bool, ghost members: seq<Char>) returns (b: bool)
      requires ep + |members| + 1 <= |expbuf| && expbuf[ep] == |members| + 1
      requires expbuf[ep+1..ep+1+|members|] == members
      requires 0 <= c < 256
      ensures c == 0 ==> !b
      ensures c != 0 ==> b == ((c in members) == af)
    {
      if c == 0 { return false; }
      var set_, n := ep + 1, expbuf[ep];
      n := n - 1;
      while n != 0
        invariant 0 <= n <= |members| && set_ == ep + 1 + |members| - n
        invariant forall x :: 0 <= x < |members| - n ==> members[x] != c
        decreases n
      {
        assert expbuf[set_] == expbuf[ep+1..ep+1+|members|][set_-ep-1];
        if expbuf[set_] == c {
          assert members[set_-ep-1] == c && c in members;
          return af;
        }
        set_, n := set_ + 1, n - 1;
      }
      return !af;
    }

    /** The character at a place of the line is one the atom stands for. */
    ghost predicate FitsAt(a: Atom, lp: nat) {
      lp < |line| && Fits(a, line[lp])
    }

    /** One item that is no closure, its code at `ep`. */
    method Plain(alp: nat, aep: nat, ghost it: Item) returns (ok: bool, lp: nat, ep: nat)
      requires braslist.Length == braelist.Length == NBRA && braslist != braelist && alp <= |line|
      requires aep + |ItemCode(it)| <= |expbuf|
      requires forall x :: 0 <= x < |ItemCode(it)| ==> expbuf[aep+x] == ItemCode(it)[x]
      requires !it.Star? && (it.Bra? || it.Ket? ==> it.k < NBRA)
      modifies braslist, braelist
      ensures ok ==> ep == aep + |ItemCode(it)| && Takes(it, line, alp, lp) && lp <= |line|
      ensures !ok ==> forall j :: !Takes(it, line, alp, j)
      ensures braslist[..] == if it.Bra? then old(braslist[..])[it.k := alp] else old(braslist[..])
      ensures braelist[..] == if it.Ket? then old(braelist[..])[it.k := alp] else old(braelist[..])
    {
      ok, lp, ep := true, alp, aep + 1;
      var op := expbuf[aep];
      assert op == ItemCode(it)[0];
      if op == CCHR {
        assert expbuf[aep+1] == ItemCode(it)[1];
        ok := expbuf[ep] == CharAt(lp);
        ep, lp := ep + 1, lp + 1;
      } else if op == CDOT {
        ok := CharAt(lp) != 0;
        lp := lp + 1;
      } else if op == CDOL {
        ok := CharAt(lp) == 0;
      } else if op == CCL || op == NCCL {
        ClassCode(aep, it.a, 0);
        ok := Cclass(ep, CharAt(lp), op == CCL, it.a.members);
        lp := lp + 1;
        ep := ep + expbuf[ep];
      } else if op == CBRA {
        assert expbuf[aep+1] == ItemCode(it)[1];
        braslist[expbuf[ep]] := lp;
        ep := ep + 1;
      } else {
        assert expbuf[aep+1] == ItemCode(it)[1];
        braelist[expbuf[ep]] := lp;
        ep := ep + 1;
      }
    }

    /** The count and the members of a class, where `cclass` looks for them. */
    lemma ClassCode(ep: nat, a: Atom, star: int)
      requires a.Class? && ep + |AtomCode(a, star)| <= |expbuf|
      requires forall x :: 0 <= x < |AtomCode(a, star)| ==> expbuf[ep+x] == AtomCode(a, star)[x]
      ensures ep + |a.members| + 2 <= |expbuf| && expbuf[ep+1] == |a.members| + 1
      ensures expbuf[ep+2..ep+2+|a.members|] == a.members
    {
      assert expbuf[ep+1] == AtomCode(a, star)[1];
      forall x | 0 <= x < |a.members| ensures expbuf[ep+2+x] == a.members[x] {
        assert expbuf[ep+(2+x)] == AtomCode(a, star)[2+x];
      }
    }

    /** A closure's run, from `alp` to one past its end. */
    method Run(alp: nat, aep: nat, ghost a: Atom) returns (lp: nat, ep: nat)
      requires alp <= |line| && aep + |AtomCode(a, STAR)| <= |expbuf|
      requires forall x :: 0 <= x < |AtomCode(a, STAR)| ==> expbuf[aep+x] == AtomCode(a, STAR)[x]
      ensures lp == RunEnd(a, line, alp) + 1 && ep == aep + |AtomCode(a, STAR)|
    {
      lp, ep := alp, aep + 1;
      var op := expbuf[aep];
      assert op == AtomCode(a, STAR)[0];
      if op == CDOT + STAR {
        while CharAt(lp) != 0
          invariant alp <= lp <= |line| && RunEnd(a, line, alp) == RunEnd(a, line, lp)
          decreases |line| - lp
        {
          lp := lp + 1;
        }
        lp := lp + 1;
      } else if op == CCHR + STAR {
        assert expbuf[aep+1] == AtomCode(a, STAR)[1];
        while CharAt(lp) == expbuf[ep]
          invariant alp <= lp <= |line| && RunEnd(a, line, alp) == RunEnd(a, line, lp)
          decreases |line| - lp
        {
          lp := lp + 1;
        }
        lp := lp + 1;
        ep := ep + 1;
      } else {
        ClassCode(aep, a, STAR);
        var more := Cclass(ep, CharAt(lp), op == CCL + STAR, a.members);
        while more
          invariant alp <= lp <= |line| && RunEnd(a, line, alp) == RunEnd(a, line, lp)
          invariant more <==> FitsAt(a, lp)
          decreases |line| - lp
        {
          lp := lp + 1;
          more := Cclass(ep, CharAt(lp), op == CCL + STAR, a.members);
        }
        lp := lp + 1;
        ep := ep + expbuf[ep];
      }
    }

    // ----- advance

    ghost predicate Ready(lp: nat, ep: nat, q: seq<Item>) {
      && braslist.Length == braelist.Length == NBRA && braslist != braelist
      && lp <= |line| && Holds(expbuf, ep, q) && Proper(q)
    }

    /** `advance`: the pattern `q`, whose code is at `aep`, from place `alp`. */
    method Advance(alp: nat, aep: nat, ghost q: seq<Item>) returns (ok: bool)
      requires Ready(alp, aep, q)
      modifies this`loc2, braslist, braelist
      ensures ok == Best(q, line, alp, locs).At?
      ensures ok ==>
                var ks := Best(q, line, alp, locs).ks; loc2 == ks[|q|] && Recorded(braslist[..], braelist[..], q, ks)
      ensures Kept(old(braslist[..]), braslist[..], q, false) && Kept(old(braelist[..]), braelist[..], q, true)
      decreases |q|, 1, 0
    {
      hide Best, Prepend, Recorded, Kept, Holds, Proper, Takes;
      var lp, ep := alp, aep;
      ghost var pre: seq<nat>, n: nat := [], 0;
      assert q[0..] == q && q[..0] == [];
      PrependNothing(Best(q, line, alp, locs));
      NoMarks(braslist[..], braelist[..]);
      while true
        invariant n <= |q| && |pre| == n && Ready(lp, ep, q[n..])
        invariant Best(q, line, alp, locs) == Prepend(pre, Best(q[n..], line, lp, locs))
        invariant Recorded(braslist[..], braelist[..], q[..n], pre)
        invariant Kept(old(braslist[..]), braslist[..], q[..n], false)
        invariant Kept(old(braelist[..]), braelist[..], q[..n], true)
        decreases |q| - n
      {
        ghost var rest := q[n..];
        CodeHere(ep, rest);
        var op := expbuf[ep];
        if op == CEOF {
          BestEnds(q, n, line, lp, locs, pre);
          loc2 := lp;
          return true;
        }
        if op == CDOT + STAR || op == CCHR + STAR || op == CCL + STAR || op == NCCL + STAR {
          ok := AtClosure(lp, ep, q, n, pre, old(braslist[..]), old(braelist[..]));
          return;
        }
        var more;
        ghost var was := lp;
        more, lp, ep := AtPlain(lp, ep, q, n, pre, old(braslist[..]), old(braelist[..]));
        if !more {
          return false;
        }
        pre, n := pre + [was], n + 1;
      }
    }

    /** The code at `aep` is that of item `n` of `q`, which is no closure. */
    method AtPlain(alp: nat, aep: nat, ghost q: seq<Item>, ghost n: nat, ghost pre: seq<nat>,
                   ghost bras: seq<int>, ghost kets: seq<int>) returns (more: bool, lp: nat, ep: nat)
      requires n < |q| && |pre| == n && Proper(q) && Ready(alp, aep, q[n..]) && !q[n].Star?
      requires Recorded(braslist[..], braelist[..], q[..n], pre)
      requires Kept(bras, braslist[..], q[..n], false) && Kept(kets, braelist[..], q[..n], true)
      modifies braslist, braelist
      ensures Kept(bras, braslist[..], q, false) && Kept(kets, braelist[..], q, true)
      ensures !more ==> Prepend(pre, Best(q[n..], line, alp, locs)) == No
      ensures more ==>
                && Ready(lp, ep, q[n+1..])
                && Prepend(pre, Best(q[n..], line, alp, locs)) == Prepend(pre + [alp], Best(q[n+1..], line, lp, locs))
                && Recorded(braslist[..], braelist[..], q[..n+1], pre + [alp])
                && Kept(bras, braslist[..], q[..n+1], false) && Kept(kets, braelist[..], q[..n+1], true)
    {
      hide Best, Prepend, Recorded, Kept, Holds, Proper, Takes;
      ghost var rest := q[n..];
      HoldsItem(expbuf, aep, rest);
      assert rest[1..] == q[n+1..] && rest[0] == q[n];
      ProperRest(q, n);
      ghost var b, k := braslist[..], braelist[..];
      more, lp, ep := Plain(alp, aep, rest[0]);
      BestSteps(rest, line, alp, locs, pre, more, lp);
      KeptStep(bras, b, braslist[..], q, n, false, alp);
      KeptStep(kets, k, braelist[..], q, n, true, alp);
      if more {
        StepMarks(b, k, braslist[..], braelist[..], q, n, pre, alp);
      }
    }

    /** The code at `ep` is that of a closure, item `n` of `q`. */
    method AtClosure(alp: nat, aep: nat, ghost q: seq<Item>, ghost n: nat, ghost pre: seq<nat>,
                     ghost bras: seq<int>, ghost kets: seq<int>) returns (ok: bool)
      requires n < |q| && |pre| == n && Proper(q) && Ready(alp, aep, q[n..]) && q[n].Star?
      requires Recorded(braslist[..], braelist[..], q[..n], pre)
      requires Kept(bras, braslist[..], q[..n], false) && Kept(kets, braelist[..], q[..n], true)
      modifies this`loc2, braslist, braelist
      ensures var f := Prepend(pre, Best(q[n..], line, alp, locs));
              && ok == f.At?
              && (ok ==> |f.ks| == |q| + 1 && loc2 == f.ks[|q|] && Recorded(braslist[..], braelist[..], q, f.ks))
      ensures Kept(bras, braslist[..], q, false) && Kept(kets, braelist[..], q, true)
      decreases |q|, 0, 0
    {
      hide Best, Longest, Prepend, Recorded, Kept, Holds, Proper;
      ghost var rest := q[n..];
      HoldsItem(expbuf, aep, rest);
      assert rest[1..] == q[n+1..] && rest[0] == q[n];
      ProperRest(q, n);
      ghost var b, k := braslist[..], braelist[..];
      var lp, ep := Run(alp, aep, rest[0].a);
      ok := Closure(alp, lp, ep, rest[1..]);
      BestCloses(rest, line, alp, locs, pre);
      if ok {
        ghost var ks := Longest(rest[1..], line, alp, lp - 1, locs).ks;
        ClosureMarks(b, k, braslist[..], braelist[..], q, n, pre, alp, ks);
      }
      KeptOn(bras, b, braslist[..], q, n, false);
      KeptOn(kets, k, braelist[..], q, n, true);
    }

    lemma PrependNothing(f: Found)
      ensures Prepend([], f) == f
    {
    }

    /** The opcode tells the kind of the item. */
    lemma CodeHere(ep: nat, q: seq<Item>)
      requires Holds(expbuf, ep, q)
      ensures ep < |expbuf| && (expbuf[ep] == CEOF <==> q == [])
      ensures q != [] ==> (q[0].Star? <==> expbuf[ep] in {CDOT + STAR, CCHR + STAR, CCL + STAR, NCCL + STAR})
    {
      assert expbuf[ep] == expbuf[ep..ep+|Code(q)|][0];
    }

    /** The places a closure can end at, from the furthest back to `curlp`. */
    method Closure(curlp: nat, alp: nat, ep: nat, ghost q: seq<Item>) returns (ok: bool)
      requires curlp < alp && Ready(alp - 1, ep, q)
      modifies this`loc2, braslist, braelist
      ensures ok == Longest(q, line, curlp, alp - 1, locs).At?
      ensures ok ==>
                var ks := Longest(q, line, curlp, alp - 1, locs).ks;
                loc2 == ks[|q|] && Recorded(braslist[..], braelist[..], q, ks)
      ensures Kept(old(braslist[..]), braslist[..], q, false) && Kept(old(braelist[..]), braelist[..], q, true)
      decreases |q|, 2, 0
    {
      var lp := alp;
      while true
        invariant curlp < lp <= alp
        invariant Longest(q, line, curlp, alp - 1, locs) == Longest(q, line, curlp, lp - 1, locs)
        invariant Kept(old(braslist[..]), braslist[..], q, false) && Kept(old(braelist[..]), braelist[..], q, true)
        decreases lp
      {
        lp := lp - 1;
        if lp == locs {
          break;
        }
        ok := Advance(lp, ep, q);
        if ok {
          return;
        }
        if lp <= curlp {
          break;
        }
      }
      return false;
    }

    // ----- execute

    /** The best match from `loc1`, which ends at `loc2`, marks and all. */
    ghost predicate Matched()
      reads this, braslist, braelist
    {
      && 0 <= loc1 <= |line| && Best(p, line, loc1, locs).At?
      && (var ks := Best(p, line, loc1, locs).ks;
          loc2 == ks[|p|] && Recorded(braslist[..], braelist[..], p, ks))
    }

    /** What a search from the start of the line should find: a match if and only if
        there is one anywhere, the leftmost, and of those there the greediest. */
    ghost predicate Found(ok: bool)
      reads this, braslist, braelist
    {
      && (ok <==> if circfl then MatchesAt(p, line, 0) else exists i :: 0 <= i <= |line| && MatchesAt(p, line, i))
      && (ok ==> forall i :: 0 <= i < loc1 && i <= |line| ==> !MatchesAt(p, line, i))
      && (ok ==> exists ks :: Spans(p, line, ks) && ks[0] == loc1 && ks[|p|] == loc2
                              && Recorded(braslist[..], braelist[..], p, ks)
                              && forall ks' :: Spans(p, line, ks') && ks'[0] == loc1 ==> Greedier(ks, ks'))
    }

    /** `execute`: from the start of the line, or, when `gf`, from where the last
        match ended. */
    method Execute(gf: bool) returns (ok: bool)
      requires Valid() && (gf ==> 0 <= loc2 <= |line|)
      modifies this, braslist, braelist
      ensures gf && circfl ==> !ok
      ensures !(gf && circfl) ==>
                && locs == (if gf then old(loc2) else -1)
                && (ok ==> Matched() && loc1 >= if gf then old(loc2) else 0)
                && (ok && circfl ==> loc1 == 0)
                && (forall i :: (if gf then old(loc2) else 0) <= i < (if ok then loc1 else if circfl then 1
                                                                      else |line| + 1) ==>
                      Best(p, line, i, locs) == No)
      ensures !gf ==> Found(ok)
    {
      var p1 := 0;
      if gf {
        if circfl { return false; }
        p1 := loc2;
        locs := p1;
      } else {
        locs := -1;
      }
      hide Best, Holds, Proper, Recorded, Kept, Found;
      var p2 := 0;
      if circfl {
        loc1 := p1;
        ok := Advance(p1, p2, p);
        if !gf { Finds(ok); }
        return;
      }
      FirstCode();
      var fast, c := expbuf[p2] == CCHR, 0;
      if fast { c := expbuf[p2+1]; }
      ghost var from := p1;
      while true
        invariant from <= p1 <= |line| && Ready(p1, p2, p)
        invariant forall i :: from <= i < p1 ==> Best(p, line, i, locs) == No
        invariant locs == (if gf then old(loc2) else -1)
        decreases |line| - p1
      {
        if fast && CharAt(p1) != c {
          NotHere(p1, c);
        } else {
          ok := Advance(p1, p2, p);
          if ok {
            loc1 := p1;
            if !gf { Finds(true); }
            return;
          }
        }
        if CharAt(p1) == 0 { break; }
        p1 := p1 + 1;
      }
      if !gf { Finds(false); }
      return false;
    }

    lemma FirstCode()
      requires Holds(expbuf, 0, p)
      ensures |expbuf| > 0
      ensures (expbuf[0] == CCHR ==> |expbuf| > 1 && p != [] && p[0].One? && p[0].a.Chr? && expbuf[1] == p[0].a.c)
    {
      CodeHere(0, p);
      if p != [] { HoldsItem(expbuf, 0, p); }
    }

    /** The quick test on the first character turns no match away. */
    lemma NotHere(lp: nat, c: int)
      requires Holds(expbuf, 0, p) && lp <= |line| && |expbuf| > 1 && expbuf[0] == CCHR && c == expbuf[1]
      requires CharAt(lp) != c
      ensures Best(p, line, lp, locs) == No
    {
      FirstCode();
    }

    /** The search from each place in turn finds that. */
    lemma Finds(ok: bool)
      requires locs == -1 && (ok ==> Matched() && (circfl ==> loc1 == 0))
      requires forall i :: 0 <= i < (if ok then loc1 else if circfl then 1 else |line| + 1) ==>
                 Best(p, line, i, locs) == No
      ensures Found(ok)
    {
      forall i | 0 <= i <= |line| ensures Best(p, line, i, locs).At? <==> MatchesAt(p, line, i) {
        BestIff(p, line, i, locs);
      }
      if ok {
        var ks := Best(p, line, loc1, locs).ks;
        BestSpans(p, line, loc1, locs);
        forall ks' | Spans(p, line, ks') && ks'[0] == loc1 ensures Greedier(ks, ks') {
          BestIsGreediest(p, line, loc1, ks', locs);
        }
      }
    }
  }

  /** What is found further on, with the places so far in front. */
  function Prepend(pre: seq<nat>, f: Found): Found {
    match f
    case No => No
    case At(ks) => At(pre + ks)
  }

  /** What the marks in `q` have recorded is where they stand in the match. */
  ghost predicate Recorded(bras: seq<int>, kets: seq<int>, q: seq<Item>, ks: seq<nat>) {
    && |q| <= |ks|
    && (forall n :: 0 <= n < |q| && q[n].Bra? && q[n].k < |bras| ==> bras[q[n].k] == ks[n])
    && (forall n :: 0 <= n < |q| && q[n].Ket? && q[n].k < |kets| ==> kets[q[n].k] == ks[n])
  }

  lemma NoMarks(bras: seq<int>, kets: seq<int>)
    ensures Recorded(bras, kets, [], []) && Kept(bras, bras, [], false) && Kept(kets, kets, [], true)
  {
  }

  lemma ProperRest(q: seq<Item>, n: nat)
    requires n < |q| && Proper(q[n..])
    ensures Proper(q[n+1..]) && ((q[n].Bra? || q[n].Ket?) ==> q[n].k < NBRA)
  {
    var r, s := q[n..], q[n+1..];
    assert forall m :: 0 <= m < |s| ==> s[m] == r[m+1];
    assert r[0] == q[n];
  }

  lemma StepMarks(bras: seq<int>, kets: seq<int>, bras': seq<int>, kets': seq<int>, q: seq<Item>, n: nat,
                  pre: seq<nat>, at: nat)
    requires n < |q| && |pre| == n && Proper(q) && |bras| == |kets| == NBRA
    requires Recorded(bras, kets, q[..n], pre)
    requires bras' == if q[n].Bra? && q[n].k < NBRA then bras[q[n].k := at] else bras
    requires kets' == if q[n].Ket? && q[n].k < NBRA then kets[q[n].k := at] else kets
    ensures Recorded(bras', kets', q[..n+1], pre + [at])
  {
    assert forall m :: 0 <= m < n ==> q[..n][m] == q[..n+1][m] == q[m];
    assert q[..n+1][n] == q[n];
  }

  lemma ClosureMarks(bras: seq<int>, kets: seq<int>, bras': seq<int>, kets': seq<int>, q: seq<Item>, n: nat,
                     pre: seq<nat>, at: nat, ks: seq<nat>)
    requires n < |q| && |pre| == n && Proper(q) && |bras| == |kets| == NBRA && q[n].Star?
    requires Recorded(bras, kets, q[..n], pre) && Recorded(bras', kets', q[n+1..], ks)
    requires Kept(bras, bras', q[n+1..], false) && Kept(kets, kets', q[n+1..], true)
    ensures Recorded(bras', kets', q, pre + ([at] + ks))
  {
    var all, s := pre + ([at] + ks), q[n+1..];
    forall m | 0 <= m < |q| && (q[m].Bra? || q[m].Ket?) && q[m].k < NBRA
      ensures if q[m].Bra? then bras'[q[m].k] == all[m] else kets'[q[m].k] == all[m]
    {
      if m < n {
        assert q[..n][m] == q[m];
        forall x | 0 <= x < |s| ensures s[x] != q[m] { assert s[x] == q[n+1+x]; }
      } else {
        assert s[m-n-1] == q[m];
      }
    }
  }

  lemma KeptOn(a: seq<int>, b: seq<int>, c: seq<int>, q: seq<Item>, n: nat, ket: bool)
    requires n < |q| && Kept(a, b, q[..n], ket) && Kept(b, c, q[n+1..], ket)
    ensures Kept(a, c, q, ket)
  {
    var s := q[n+1..];
    forall k | 0 <= k < |a| && NoMark(q, k, ket) ensures c[k] == a[k] {
      assert forall m :: 0 <= m < n ==> q[..n][m] == q[m];
      assert forall m :: 0 <= m < |s| ==> s[m] == q[n+1+m];
    }
  }

  lemma KeptStep(a: seq<int>, b: seq<int>, c: seq<int>, q: seq<Item>, n: nat, ket: bool, at: nat)
    requires n < |q| && Kept(a, b, q[..n], ket)
    requires c == if (if ket then q[n].Ket? else q[n].Bra?) && q[n].k < |b| then b[q[n].k := at] else b
    ensures Kept(a, c, q[..n+1], ket) && Kept(a, c, q, ket)
  {
    forall k | 0 <= k < |a| && NoMark(q[..n+1], k, ket) ensures c[k] == a[k] {
      assert forall m :: 0 <= m < n ==> q[..n][m] == q[..n+1][m];
      assert q[..n+1][n] == q[n];
    }
    KeptMore(a, c, q, n + 1, ket);
  }

  lemma KeptMore(a: seq<int>, b: seq<int>, q: seq<Item>, n: nat, ket: bool)
    requires n <= |q| && Kept(a, b, q[..n], ket)
    ensures Kept(a, b, q, ket)
  {
    assert forall m :: 0 <= m < n ==> q[..n][m] == q[m];
  }

  lemma BestEnds(q: seq<Item>, n: nat, line: seq<Char>, lp: nat, locs: int, pre: seq<nat>)
    requires n <= |q| && |pre| == n && lp <= |line| && q[n..] == []
    ensures q[..n] == q && Prepend(pre, Best(q[n..], line, lp, locs)) == At(pre + [lp])
    ensures forall bras, kets {:trigger Recorded(bras, kets, q[..n], pre)} ::
              Recorded(bras, kets, q[..n], pre) ==> Recorded(bras, kets, q, pre + [lp])
  {
    assert q[..n] == q;
  }

  lemma BestCloses(rest: seq<Item>, line: seq<Char>, lp: nat, locs: int, pre: seq<nat>)
    requires rest != [] && rest[0].Star? && lp <= |line|
    ensures var f := Longest(rest[1..], line, lp, RunEnd(rest[0].a, line, lp), locs);
            var g := Prepend(pre, Best(rest, line, lp, locs));
            g.At? == f.At? && (f.At? ==> g.ks == pre + ([lp] + f.ks))
  {
    hide Longest, RunEnd;
  }

  lemma BestSteps(rest: seq<Item>, line: seq<Char>, lp: nat, locs: int, pre: seq<nat>, more: bool, lp': nat)
    requires rest != [] && !rest[0].Star? && lp <= |line|
    requires if more then Takes(rest[0], line, lp, lp') else forall j :: !Takes(rest[0], line, lp, j)
    ensures if more then lp' <= |line|
        && Prepend(pre, Best(rest, line, lp, locs)) == Prepend(pre + [lp], Best(rest[1..], line, lp', locs))
            else Prepend(pre, Best(rest, line, lp, locs)) == No
  {
    if !more { assert !Takes(rest[0], line, lp, lp) && !Takes(rest[0], line, lp, lp + 1); }
    else if Best(rest[1..], line, lp', locs).At? {
      var ks := Best(rest[1..], line, lp', locs).ks;
      assert pre + ([lp] + ks) == (pre + [lp]) + ks;
    }
  }

  /** Entries of no mark in `q` are as they were. */
  ghost predicate Kept(was: seq<int>, now: seq<int>, q: seq<Item>, ket: bool) {
    |was| == |now| &&
    forall k :: 0 <= k < |was| && NoMark(q, k, ket) ==> now[k] == was[k]
  }

  /** No item of `q` is mark `k`. */
  predicate NoMark(q: seq<Item>, k: nat, ket: bool) {
    forall n :: 0 <= n < |q| ==> if ket then q[n] != Ket(k) else q[n] != Bra(k)
  }
}
