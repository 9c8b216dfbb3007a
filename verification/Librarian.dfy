/** The librarian's order of modules: written in rounds, each module after those
    that need it. */
module Librarian {

  const MAXMOD := 300

  /** Module `need` uses a public of module `have`, and must come first. */
  datatype Dep = Dep(need: nat, have: nat)

  // ----- a round, on values

  function Haves(deps: seq<Dep>): set<nat> { set d | d in deps :: d.have }

  /** The dependencies whose needer has not just been written. */
  function Clean(deps: seq<Dep>, want: set<nat>): (r: seq<Dep>)
    ensures forall d :: d in r <==> d in deps && d.need !in want
    ensures |r| <= |deps|
  {
    if deps == [] then []
    else
      assert forall d :: d in deps <==> d == deps[0] || d in deps[1..];
      (if deps[0].need in want then [] else [deps[0]]) + Clean(deps[1..], want)
  }

  /** The dependencies left and the modules of the round; `circular` once the
      warning has been given. */
  datatype Lib = Lib(deps: seq<Dep>, want: set<nat>)

  function Ready(l: Lib): set<nat> { Haves(l.deps) - Haves(Clean(l.deps, l.want)) }

  predicate Stuck(l: Lib) { Clean(l.deps, l.want) != [] && Ready(l) == {} }

  /** `set_wants` */
  function SetWants(l: Lib): Lib {
    if Stuck(l) then Lib([], Haves(l.deps)) else Lib(Clean(l.deps, l.want), Ready(l))
  }

  lemma {:induction false} CleanShorter(deps: seq<Dep>, want: set<nat>, d: Dep)
    requires d in deps && d.need in want
    ensures |Clean(deps, want)| < |deps|
  {
    if deps[0].need !in want {
      assert d in deps[1..];
      CleanShorter(deps[1..], want, d);
    }
  }

  /** There are fewer dependencies after a round with something to write. */
  lemma FewerDeps(l: Lib)
    requires SetWants(l).want != {}
    ensures |SetWants(l).deps| < |l.deps|
  {
    if Stuck(l) {
      assert l.deps != [];
    } else {
      var m :| m in Ready(l);
      var d :| d in l.deps && d.have == m;
      assert d !in Clean(l.deps, l.want);
      CleanShorter(l.deps, l.want, d);
    }
  }

  /** The rounds of the write loop, that of `l` first. */
  ghost function Rounds(l: Lib): (r: seq<set<nat>>)
    ensures |r| >= 1 && r[0] == l.want
    decreases |l.deps|
  {
    var l' := SetWants(l);
    if l'.want == {} then [l.want]
    else
      FewerDeps(l);
      [l.want] + Rounds(l')
  }

  /** Whether the loop warns of circular dependencies. */
  ghost predicate Warns(l: Lib)
    decreases |l.deps|
  {
    Stuck(l) || (SetWants(l).want != {} && (FewerDeps(l); Warns(SetWants(l))))
  }

  // ----- what holds between rounds

  /** Needers not yet written before this round; no module of the round is still
      waited on. */
  ghost predicate Closed(l: Lib) {
    forall d :: d in l.deps ==> d.have !in l.want && (d.need in l.want || d.need in Haves(l.deps))
  }

  lemma KeepsClosed(l: Lib)
    requires Closed(l)
    ensures Closed(SetWants(l))
  {
  }

  /** Modules waited on are those of the next round and those still waited on, and
      no module is both. */
  lemma Splits(l: Lib)
    requires Closed(l)
    ensures var l' := SetWants(l);
            && Haves(l.deps) == l'.want + Haves(l'.deps) && l'.want !! Haves(l'.deps)
            && l.want !! Haves(l.deps) && (l'.want == {} ==> Haves(l.deps) == {})
  {
    var kept := Clean(l.deps, l.want);
    assert Haves(kept) <= Haves(l.deps);
    if kept != [] { assert kept[0] in kept && kept[0].have in Haves(kept); }
    if Ready(l) == {} && kept == [] {
      assert Haves(l.deps) == {};
    }
  }

  ghost predicate In(r: seq<set<nat>>, m: nat) {
    exists i :: 0 <= i < |r| && m in r[i]
  }

  lemma InMore(a: set<nat>, r: seq<set<nat>>, m: nat)
    ensures In([a] + r, m) <==> m in a || In(r, m)
  {
    var s := [a] + r;
    if In(s, m) {
      var i :| 0 <= i < |s| && m in s[i];
      assert i > 0 ==> m in r[i-1];
    }
    if m in a { assert m in s[0]; }
    if In(r, m) {
      var i :| 0 <= i < |r| && m in r[i];
      assert m in s[i+1];
    }
  }

  /** Every module of the round, and every one waited on, is written ... */
  lemma {:induction false} Written(l: Lib, m: nat)
    requires Closed(l)
    ensures In(Rounds(l), m) <==> m in l.want || m in Haves(l.deps)
    decreases |l.deps|
  {
    hide Closed, In, Haves, SetWants;
    var l' := SetWants(l);
    Splits(l);
    if l'.want == {} {
      InMore(l.want, [], m);
      NotIn(m);
      assert [l.want] + [] == [l.want];
    } else {
      FewerDeps(l);
      KeepsClosed(l);
      Written(l', m);
      InMore(l.want, Rounds(l'), m);
    }
  }

  lemma NotIn(m: nat)
    ensures !In([], m)
  {
  }

  ghost predicate Apart(r: seq<set<nat>>) {
    forall i, j :: 0 <= i < j < |r| ==> r[i] !! r[j]
  }

  /** ... and in one round only. */
  lemma {:induction false} WrittenOnce(l: Lib)
    requires Closed(l)
    ensures Apart(Rounds(l))
    decreases |l.deps|
  {
    hide Closed, Haves, SetWants;
    var l' := SetWants(l);
    if l'.want != {} {
      FewerDeps(l);
      KeepsClosed(l);
      WrittenOnce(l');
      var r' := Rounds(l');
      forall j | 0 <= j < |r'| ensures l.want !! r'[j] {
        forall m | m in l.want ensures m !in r'[j] {
          Splits(l);
          Written(l', m);
          assert m in r'[j] ==> In(r', m);
        }
      }
    }
  }

  /** Without a warning, who needs is written in an earlier round than what it needs. */
  lemma {:induction false} InOrder(l: Lib, d: Dep) returns (i: nat, j: nat)
    requires Closed(l) && !Warns(l) && d in l.deps
    ensures i < j < |Rounds(l)| && d.need in Rounds(l)[i] && d.have in Rounds(l)[j]
    decreases |l.deps|
  {
    hide Closed, Haves, SetWants, Stuck, Clean, Ready, In, Rounds, Warns;
    var l' := SetWants(l);
    OneRoundOn(l, d);
    if d.need in l.want {
      Written(l', d.have);
      var k := WhichRound(Rounds(l'), d.have);
      i, j := 0, k + 1;
    } else {
      i, j := InOrder(l', d);
      i, j := i + 1, j + 1;
    }
    Later(l, l', i, j);
  }

  lemma OneRoundOn(l: Lib, d: Dep)
    requires Closed(l) && !Warns(l) && d in l.deps
    ensures var l' := SetWants(l);
            && l'.want != {} && Closed(l') && !Warns(l') && |l'.deps| < |l.deps|
            && (d.have in l'.want || d.have in Haves(l'.deps)) && (d.need !in l.want ==> d in l'.deps)
            && Rounds(l) == [l.want] + Rounds(l')
  {
    assert d.have in Haves(l.deps);
    hide Closed, Rounds;
    Splits(l);
    RoundsFrom(l);
    FewerDeps(l);
    KeepsClosed(l);
  }

  lemma WhichRound(r: seq<set<nat>>, m: nat) returns (i: nat)
    requires In(r, m)
    ensures i < |r| && m in r[i]
  {
    i :| 0 <= i < |r| && m in r[i];
  }

  lemma RoundsFrom(l: Lib)
    ensures Rounds(l) == [l.want] + if SetWants(l).want == {} then [] else Rounds(SetWants(l))
    ensures Warns(l) == (Stuck(l) || (SetWants(l).want != {} && Warns(SetWants(l))))
  {
  }

  /** Rounds of `l` after the first are rounds of what comes after it. */
  lemma Later(l: Lib, l': Lib, i: nat, j: nat)
    requires l' == SetWants(l) && l'.want != {} && i < j <= |Rounds(l')|
    ensures j < |Rounds(l)| && Rounds(l)[j] == Rounds(l')[j-1]
    ensures Rounds(l)[i] == if i == 0 then l.want else Rounds(l')[i-1]
  {
    hide Rounds, SetWants, Warns;
    RoundsFrom(l);
    var r := Rounds(l');
    assert ([l.want] + r)[j] == r[j-1];
  }

  // ----- the warning means a cycle

  /** A walk along dependencies. */
  ghost predicate Walk(deps: seq<Dep>, p: seq<nat>) {
    forall i :: 0 <= i < |p| - 1 ==> Dep(p[i], p[i+1]) in deps
  }

  ghost predicate Cyclic(deps: seq<Dep>) {
    exists p :: |p| >= 2 && Walk(deps, p) && p[0] == p[|p|-1]
  }

  /** Everything needs something that is needed in turn: one can walk back forever. */
  lemma {:induction false} WalkBack(deps: seq<Dep>, n: nat) returns (p: seq<nat>)
    requires deps != [] && forall d :: d in deps ==> d.need in Haves(deps)
    ensures |p| == n + 2 && Walk(deps, p) && (forall i :: 0 <= i < |p| ==> p[i] in Haves(deps))
  {
    if n == 0 {
      assert deps[0] in deps;
      p := [deps[0].need, deps[0].have];
      assert Dep(p[0], p[1]) == deps[0];
      assert p[1] in Haves(deps);
    } else {
      var q := WalkBack(deps, n - 1);
      assert q[0] in Haves(deps);
      var d :| d in deps && d.have == q[0];
      p := [d.need] + q;
      forall i | 0 <= i < |p| - 1 ensures Dep(p[i], p[i+1]) in deps {
        if i > 0 { assert Dep(q[i-1], q[i]) in deps; }
      }
    }
  }

  /** More places than modules: one comes twice. */
  lemma {:induction false} Twice(p: seq<nat>, s: set<nat>) returns (i: nat, j: nat)
    requires |p| > |s| && forall k :: 0 <= k < |p| ==> p[k] in s
    ensures i < j < |p| && p[i] == p[j]
    decreases |p|
  {
    var m := p[0];
    if k :| 1 <= k < |p| && p[k] == m {
      i, j := 0, k;
    } else {
      assert |s - {m}| == |s| - 1;
      i, j := Twice(p[1..], s - {m});
      i, j := i + 1, j + 1;
    }
  }

  lemma NoWayOut(deps: seq<Dep>)
    requires deps != [] && forall d :: d in deps ==> d.need in Haves(deps)
    ensures Cyclic(deps)
  {
    var p := WalkBack(deps, |Haves(deps)|);
    var i, j := Twice(p, Haves(deps));
    var c := p[i..j+1];
    forall k | 0 <= k < |c| - 1 ensures Dep(c[k], c[k+1]) in deps {
      assert Dep(p[i+k], p[i+k+1]) in deps;
    }
    assert Walk(deps, c);
  }

  lemma MoreDeps(a: seq<Dep>, b: seq<Dep>)
    requires Cyclic(a) && forall d :: d in a ==> d in b
    ensures Cyclic(b)
  {
    var p :| |p| >= 2 && Walk(a, p) && p[0] == p[|p|-1];
    assert Walk(b, p);
  }

  lemma {:induction false} WarningMeansCycle(l: Lib)
    requires Closed(l) && Warns(l)
    ensures Cyclic(l.deps)
    decreases |l.deps|
  {
    var kept := Clean(l.deps, l.want);
    if Stuck(l) {
      forall d | d in kept ensures d.need in Haves(kept) {
        assert d.need in Haves(l.deps) && d.need !in Ready(l);
      }
      NoWayOut(kept);
      MoreDeps(kept, l.deps);
    } else {
      FewerDeps(l);
      KeepsClosed(l);
      WarningMeansCycle(SetWants(l));
      MoreDeps(kept, l.deps);
    }
  }

  /** Along a walk the rounds go up. */
  lemma {:induction false} RoundsGoUp(l: Lib, p: seq<nat>) returns (i: nat, j: nat)
    requires Closed(l) && !Warns(l) && |p| >= 2 && Walk(l.deps, p)
    ensures i < j < |Rounds(l)| && p[0] in Rounds(l)[i] && p[|p|-1] in Rounds(l)[j]
    decreases |p|
  {
    hide Closed, Rounds, Warns, Apart;
    var n := |p|;
    assert Dep(p[n-2], p[n-1]) in l.deps;
    i, j := InOrder(l, Dep(p[n-2], p[n-1]));
    if n > 2 {
      var q := p[..n-1];
      assert forall k :: 0 <= k < |q| - 1 ==> Dep(q[k], q[k+1]) == Dep(p[k], p[k+1]);
      var a, b := RoundsGoUp(l, q);
      WrittenOnce(l);
      SameRound(Rounds(l), b, i, p[n-2]);
      i := a;
    }
  }

  lemma SameRound(r: seq<set<nat>>, i: nat, j: nat, m: nat)
    requires Apart(r) && i < |r| && j < |r| && m in r[i] && m in r[j]
    ensures i == j
  {
  }

  /** The librarian warns if and only if the dependencies go round in a circle. */
  lemma WarnsIffCyclic(l: Lib)
    requires Closed(l)
    ensures Warns(l) <==> Cyclic(l.deps)
  {
    if Warns(l) {
      WarningMeansCycle(l);
    } else if Cyclic(l.deps) {
      var p :| |p| >= 2 && Walk(l.deps, p) && p[0] == p[|p|-1];
      var i, j := RoundsGoUp(l, p);
      WrittenOnce(l);
      SameRound(Rounds(l), i, j, p[0]);
    }
  }

  /** For any modules kept and dependencies among them: each is written, once and in
      one round; and there is a warning if and only if they go round in a circle. */
  lemma LibraryOrder(mods: set<nat>, deps: seq<Dep>)
    requires forall d :: d in deps ==> d.need in mods && d.have in mods
    ensures var l := Lib(deps, mods - Haves(deps));
            && Closed(l)
            && (forall m :: In(Rounds(l), m) <==> m in mods) && Apart(Rounds(l))
            && (Warns(l) <==> Cyclic(deps))
  {
    var l := Lib(deps, mods - Haves(deps));
    assert forall m :: m in Haves(deps) ==> m in mods;
    assert Closed(l);
    hide Closed, In, Rounds, Warns, Cyclic, Apart;
    forall m ensures In(Rounds(l), m) <==> m in mods {
      Written(l, m);
    }
    WrittenOnce(l);
    WarnsIffCyclic(l);
  }

  // ----- the tables

  /** The modules an array of flags marks. */
  function Marked(flags: seq<int>): set<nat> { set m: nat | m < |flags| && flags[m] != 0 }

  function Sum(flags: seq<int>): int {
    if flags == [] then 0 else Sum(flags[..|flags|-1]) + flags[|flags|-1]
  }

  ghost predicate Flags(flags: seq<int>) {
    |flags| == MAXMOD && forall m :: 0 <= m < MAXMOD ==> flags[m] == 0 || flags[m] == 1
  }

  lemma {:induction false} SumIsZero(flags: seq<int>)
    requires forall m :: 0 <= m < |flags| ==> flags[m] == 0 || flags[m] == 1
    ensures Sum(flags) >= 0 && (Sum(flags) == 0 <==> Marked(flags) == {})
  {
    if flags != [] {
      var f := flags[..|flags|-1];
      SumIsZero(f);
      if Marked(flags) != {} {
        var m :| m in Marked(flags);
        assert m < |f| ==> m in Marked(f);
      }
      if Marked(f) != {} {
        var m :| m in Marked(f);
        assert m in Marked(flags);
      }
      if flags[|flags|-1] != 0 { assert |flags| - 1 in Marked(flags); }
    }
  }

  class Tables {
    const wantmod: array<int>
    const dependency: array<Dep>
    var depnum: nat

    ghost predicate Valid()
      reads this, wantmod, dependency
    {
      && wantmod.Length == MAXMOD && Flags(wantmod[..]) && depnum <= dependency.Length
      && forall i :: 0 <= i < depnum ==> dependency[i].need < MAXMOD && dependency[i].have < MAXMOD
    }

    ghost function Abs(): Lib
      requires depnum <= dependency.Length
      reads this, wantmod, dependency
    {
      Lib(dependency[..depnum], Marked(wantmod[..]))
    }

    constructor (maxdepen: nat)
      ensures Valid() && depnum == 0 && Abs() == Lib([], {}) && fresh(wantmod) && fresh(dependency)
      ensures dependency.Length == maxdepen
    {
      wantmod := new int[MAXMOD](_ => 0);
      dependency := new Dep[maxdepen](_ => Dep(0, 0));
      depnum := 0;
      new;
      assert Marked(wantmod[..]) == {};
    }

    /** Flags set, or cleared, for every module waited on. */
    method Flag(flags: array<int>, on: int)
      requires Valid() && flags.Length == MAXMOD && Flags(flags[..]) && (on == 0 || on == 1)
      modifies flags
      ensures Flags(flags[..])
      ensures flags != wantmod ==> Valid() && Abs() == old(Abs())
      ensures Marked(flags[..]) == if on == 0 then old(Marked(flags[..])) - Haves(old(dependency[..depnum]))
                                   else old(Marked(flags[..])) + Haves(old(dependency[..depnum]))
    {
      var i := 0;
      ghost var was := flags[..];
      while i < depnum
        invariant i <= depnum && Flags(flags[..])
        invariant Marked(flags[..]) == if on == 0 then Marked(was) - Haves(dependency[..i])
            else Marked(was) + Haves(dependency[..i])
        modifies flags
      {
        HavesGrow(dependency[..i], dependency[i], dependency[..i+1]);
        MarkOne(flags[..], dependency[i].have, on);
        ghost var now := flags[..];
        flags[dependency[i].have] := on;
        assert flags[..] == now[dependency[i].have := on];
        i := i + 1;
      }
    }

    lemma HavesGrow(a: seq<Dep>, d: Dep, b: seq<Dep>)
      requires b == a + [d]
      ensures Haves(b) == Haves(a) + {d.have}
    {
    }

    lemma MarkOne(flags: seq<int>, m: nat, on: int)
      requires m < |flags|
      ensures Marked(flags[m := on]) == if on == 0 then Marked(flags) - {m} else Marked(flags) + {m}
    {
    }

    /** Dependencies whose needer has been written are dropped, in place. */
    method Drop()
      requires Valid()
      modifies this`depnum, dependency
      ensures Valid() && Abs() == Lib(Clean(old(dependency[..depnum]), Marked(wantmod[..])), Marked(wantmod[..]))
    {
      hide Clean, Marked;
      CleanNone(dependency[..depnum], Marked(wantmod[..]));
      var i, j: nat := 0, 0;
      ghost var was, want := dependency[..depnum], Marked(wantmod[..]);
      while i < depnum
        invariant j <= i <= depnum
        invariant dependency[..j] == Clean(was[..i], want)
        invariant dependency[i..depnum] == was[i..]
        invariant forall k :: 0 <= k < depnum ==> dependency[k].need < MAXMOD && dependency[k].have < MAXMOD
        modifies dependency
      {
        CleanStep(was, i, want);
        TailOf(was, i);
        assert dependency[i] == dependency[i..depnum][0] == was[i];
        ghost var rest := dependency[i..depnum];
        WantedIs(wantmod[..], dependency[i].need);
        if wantmod[dependency[i].need] == 0 {
          ghost var kept := dependency[..j];
          dependency[j] := dependency[i];
          j := j + 1;
          assert dependency[..j] == kept + [was[i]];
        }
        assert dependency[i+1..depnum] == rest[1..];
        i := i + 1;
      }
      assert was[..i] == was;
      depnum := j;
    }

    lemma CleanNone(deps: seq<Dep>, want: set<nat>)
      ensures deps[..0] == [] == Clean(deps[..0], want)
    {
    }

    lemma TailOf(s: seq<Dep>, i: nat)
      requires i < |s|
      ensures s[i..][0] == s[i] && s[i..][1..] == s[i+1..]
    {
    }

    lemma WantedIs(flags: seq<int>, m: nat)
      requires m < |flags|
      ensures m in Marked(flags) <==> flags[m] != 0
    {
    }

    lemma {:induction false} CleanStep(deps: seq<Dep>, i: nat, want: set<nat>)
      requires i < |deps|
      ensures Clean(deps[..i+1], want) == Clean(deps[..i], want) + if deps[i].need in want then [] else [deps[i]]
      decreases i
    {
      hide Clean;
      var d := deps[i];
      if i > 0 {
        CleanStep(deps[1..], i-1, want);
        assert deps[..i+1][1..] == deps[1..][..i] && deps[..i][1..] == deps[1..][..i-1];
        CleanHead(deps[..i+1], want);
        CleanHead(deps[..i], want);
        var h := if deps[0].need in want then [] else [deps[0]];
        var e := if d.need in want then [] else [d];
        assert h + (Clean(deps[1..][..i-1], want) + e) == (h + Clean(deps[1..][..i-1], want)) + e;
      } else {
        assert deps[..1] == [d] && deps[..1][1..] == [] == deps[..0];
        CleanHead(deps[..1], want);
        CleanNone(deps, want);
      }
    }

    lemma CleanHead(deps: seq<Dep>, want: set<nat>)
      requires deps != []
      ensures Clean(deps, want) == (if deps[0].need in want then [] else [deps[0]]) + Clean(deps[1..], want)
    {
    }

    /** `set_wants`: how many are to be written, none when all is done. */
    method NextRound() returns (numthis: int, warned: bool)
      requires Valid()
      modifies this`depnum, wantmod, dependency
      ensures Valid() && Abs() == SetWants(old(Abs())) && warned == Stuck(old(Abs()))
      ensures numthis >= 0 && (numthis == 0 <==> Abs().want == {})
    {
      hide Marked, Haves, Clean, Sum;
      ghost var l := Abs();
      var tempwant := new int[MAXMOD](_ => 0);
      NoFlags(tempwant[..]);
      Flag(tempwant, 1);
      Drop();
      Copy(tempwant);
      Flag(tempwant, 0);
      SumIsZero(tempwant[..]);
      SumIsZero(wantmod[..]);
      numthis := Add(tempwant);
      warned := depnum != 0 && numthis == 0;
      if warned {
        var more := Add(wantmod);
        numthis := numthis + more;
        depnum := 0;
      } else {
        Copy(tempwant);
      }
    }

    lemma NoFlags(flags: seq<int>)
      requires forall m :: 0 <= m < |flags| ==> flags[m] == 0
      ensures Marked(flags) == {}
    {
    }

    method Copy(flags: array<int>)
      requires wantmod.Length == flags.Length == MAXMOD && wantmod != flags
      modifies wantmod
      ensures wantmod[..] == flags[..]
    {
      for i := 0 to MAXMOD
        invariant wantmod[..i] == flags[..i]
      {
        wantmod[i] := flags[i];
      }
    }

    method Add(flags: array<int>) returns (n: int)
      requires flags.Length == MAXMOD
      ensures n == Sum(flags[..])
    {
      n := 0;
      for i := 0 to MAXMOD
        invariant n == Sum(flags[..i])
      {
        assert flags[..i+1][..i] == flags[..i];
        n := n + flags[i];
      }
      assert flags[..MAXMOD] == flags[..];
    }

    /** The write loop: what is written, round by round, and whether it warned. */
    method WriteAll() returns (rounds: seq<set<nat>>, warned: bool)
      requires Valid()
      modifies this`depnum, wantmod, dependency
      ensures Valid()
      ensures var l := Lib(old(dependency[..depnum]), old(Marked(wantmod[..])) - Haves(old(dependency[..depnum])));
              rounds == Rounds(l) && warned == Warns(l)
    {
      hide Rounds, Warns, SetWants, Stuck, Marked, Haves;
      Flag(wantmod, 0);
      ghost var l := Abs();
      ghost var first := l;
      rounds, warned := [], false;
      while true
        invariant Valid() && l == Abs()
        invariant Rounds(first) == rounds + Rounds(l) && Warns(first) == (warned || Warns(l))
        decreases |l.deps|
      {
        rounds := rounds + [Marked(wantmod[..])];
        var n, w := NextRound();
        RoundsFrom(l);
        warned := warned || w;
        if n == 0 { break; }
        FewerDeps(l);
        l := Abs();
      }
    }
  }
}
