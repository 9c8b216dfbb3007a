/** Sleeping and waking, and the scheduler that waits for someone to swap in. */
module Sleepers {
  import Rmap

  datatype Stat = Free | Sleep | Wait | Run | Idle | Zombie | Stopped

  /** Channels the scheduler sleeps on; 0 is none. */
  const RUNIN := 1
  const RUNOUT := 2
  const PSWP := -100

  /** A process as `setrun` leaves it, and as a wakeup of all of `who` does. */
  datatype Proc = Proc(stat: Stat, wchan: int, pri: int, loaded: bool, locked: bool, time: int, size: nat, text: int)

  function Awake(p: Proc): Proc { p.(stat := Run, wchan := 0) }

  /** Someone on channel `c` among the first `n` is not in core, and the scheduler
      has asked to be told. */
  ghost predicate Alarm(ps: seq<Proc>, runout: int, c: int, n: int) {
    runout != 0 && exists i :: 0 <= i < n && i < |ps| && ps[i].wchan == c && !ps[i].loaded
  }

  /** The table after the first `n` on channel `c` have been woken. */
  ghost function Woken(ps: seq<Proc>, runout: int, c: int, n: int): (r: seq<Proc>) {
    seq(|ps|, i requires 0 <= i < |ps| =>
      if (i < n && ps[i].wchan == c) || (Alarm(ps, runout, c, n) && ps[i].wchan == RUNOUT) then Awake(ps[i]) else ps[i])
  }

  ghost function Left(ps: seq<Proc>, runout: int, c: int, n: int): int {
    if Alarm(ps, runout, c, n) then 0 else runout
  }

  /** The scheduler is in core; it sleeps for someone to swap in only while there
      is nobody, and has then asked to be woken. */
  ghost predicate Inv(ps: seq<Proc>, runin: int, runout: int) {
    && ps != [] && ps[0].loaded && ps[0].locked
    && (forall i :: 0 <= i < |ps| ==> 0 <= ps[i].time < 256 && 0 < ps[i].size < Rmap.UNITS)
    && (forall i :: 0 <= i < |ps| && ps[i].wchan != 0 ==> ps[i].stat == Sleep || ps[i].stat == Wait)
    && (forall i :: 0 < i < |ps| ==> ps[i].wchan != RUNIN && ps[i].wchan != RUNOUT)
    && (ps[0].wchan == RUNIN ==> runin != 0)
    && (ps[0].wchan == RUNOUT ==> runout != 0 && forall i :: 0 <= i < |ps| ==> !Ready(ps[i]))
  }

  /** Ready to run, but not in core. */
  predicate Ready(p: Proc) { p.stat == Run && !p.loaded }

  predicate Easy(p: Proc) { p.loaded && !p.locked && (p.stat == Wait || p.stat == Stopped) }

  predicate Other(p: Proc) { p.loaded && !p.locked && (p.stat == Run || p.stat == Sleep) }

  /** The longest waiting of those that `who` picks, the first of them if several. */
  ghost predicate Longest(ps: seq<Proc>, p: nat, who: Proc -> bool) {
    && p < |ps| && who(ps[p])
    && (forall i :: 0 <= i < |ps| && who(ps[i]) ==> ps[i].time <= ps[p].time)
    && (forall i :: 0 <= i < p && who(ps[i]) ==> ps[i].time < ps[p].time)
  }

  /** Waking whoever sleeps on a channel leaves nobody forgotten. */
  lemma WokenKeepsInv(ps: seq<Proc>, runin: int, runout: int, c: int)
    requires Inv(ps, runin, runout) && c != 0
    ensures Inv(Woken(ps, runout, c, |ps|), runin, Left(ps, runout, c, |ps|))
    ensures forall i :: 0 <= i < |ps| ==> Woken(ps, runout, c, |ps|)[i].wchan != c
  {
    var r := Woken(ps, runout, c, |ps|);
    if r[0].wchan == RUNOUT {
      forall i | 0 <= i < |ps| ensures !Ready(r[i]) { assert !Ready(ps[i]); }
    }
  }

  /** A shared text: processes in core that use it, and its size. */
  datatype Text = Text(ccount: nat, size: nat)

  /** What the scheduler decides: to sleep, to bring `p` in at `a` (its text at `ta`,
      if that is to be loaded), or to put `p` out to `a` on the swap device. */
  datatype Choice = Sleeps | In(p: nat, a: int, ta: int) | Out(p: nat, a: int)

  class Table {
    const proc: array<Proc>
    var curpri: int
    var runrun: nat
    var runin: nat
    var runout: nat

    constructor (n: nat)
      requires n > 0
      ensures fresh(proc) && proc.Length == n && Inv(proc[..], runin, runout) && runout == 0
    {
      proc := new Proc[n](i => Proc(if i == 0 then Run else Free, 0, 0, i == 0, i == 0, 0, 1, -1));
      curpri, runrun, runin, runout := 0, 0, 0, 0;
    }

    /** `setrun`. */
    method SetRun(p: nat)
      requires p < proc.Length
      modifies proc, `runrun, `runout
      decreases if runout != 0 then 1 else 0, 0, 0
      ensures var woke := old(runout) != 0 && !old(proc[p]).loaded;
              && runout == (if woke then 0 else old(runout))
              && forall i :: 0 <= i < proc.Length ==>
                   proc[i] == if i == p || (woke && old(proc[i]).wchan == RUNOUT) then Awake(old(proc[i]))
                       else old(proc[i])
      ensures runrun >= old(runrun)
      ensures old(proc[p]).pri < curpri ==> runrun > 0
    {
      proc[p] := proc[p].(wchan := 0);
      proc[p] := proc[p].(stat := Run);
      if proc[p].pri < curpri {
        runrun := runrun + 1;
      }
      if runout != 0 && !proc[p].loaded {
        runout := 0;
        Wakeup(RUNOUT);
      }
    }

    /** `wakeup`: all that sleep on a channel, the scheduler too if one of them has
        to be brought in. */
    method Wakeup(c: int)
      requires c != 0
      modifies proc, `runrun, `runout
      decreases if runout != 0 then 1 else 0, 1, 0
      ensures proc[..] == Woken(old(proc[..]), old(runout), c, proc.Length)
      ensures runout == Left(old(proc[..]), old(runout), c, proc.Length)
      ensures forall i ::
                0 <= i < proc.Length && c != RUNOUT && old(proc[i]).wchan == c && old(proc[i]).pri < curpri ==>
                  runrun > 0
      ensures runrun >= old(runrun)
    {
      ghost var ps := proc[..];
      var i := 0;
      while i < proc.Length
        invariant i <= proc.Length && runrun >= old(runrun)
        invariant proc[..] == Woken(ps, old(runout), c, i)
        invariant runout == Left(ps, old(runout), c, i)
        invariant forall j :: 0 <= j < i && c != RUNOUT && ps[j].wchan == c && ps[j].pri < curpri ==> runrun > 0
        modifies proc, `runrun, `runout
      {
        if proc[i].wchan == c {
          SetRun(i);
        }
        i := i + 1;
      }
    }

    /** `sleep`, by the process that runs, but for signals. */
    method GoToSleep(p: nat, chan: int, pri: int)
      requires Inv(proc[..], runin, runout) && p < proc.Length && chan != 0
      requires proc[p].loaded && proc[p].stat == Run
      requires if p == 0 then (chan == RUNIN && runin != 0 && pri < 0)
                              || (chan == RUNOUT && runout != 0 && pri < 0 && forall i :: 0 <= i < proc.Length ==>
                                    !Ready(proc[i]))
               else chan != RUNIN && chan != RUNOUT
      modifies proc, `runrun, `runin, `runout
      ensures Inv(proc[..], runin, runout)
      ensures var slept := old(proc[p]).(stat := if pri >= 0 then Wait else Sleep, wchan := chan, pri := pri);
              var ps := old(proc[..])[p := slept];
              if pri >= 0 && old(runin) != 0
              then runin == 0 && proc[..] == Woken(ps, old(runout), RUNIN, proc.Length) && proc[0].wchan != RUNIN
              else runin == old(runin) && proc[..] == ps
      ensures proc[p].wchan == chan
    {
      proc[p] := proc[p].(wchan := chan);
      proc[p] := proc[p].(stat := if pri >= 0 then Wait else Sleep);
      proc[p] := proc[p].(pri := pri);
      ghost var slept := old(proc[p]).(stat := if pri >= 0 then Wait else Sleep, wchan := chan, pri := pri);
      assert proc[..] == old(proc[..])[p := slept];
      if pri >= 0 {
        if runin != 0 {
          WokenKeepsInv(proc[..], runin, runout, RUNIN);
          runin := 0;
          Wakeup(RUNIN);
        }
      }
    }

    /** `wakeup` from anywhere. */
    method WakeAll(c: int)
      requires Inv(proc[..], runin, runout) && c != 0 && c != RUNIN && c != RUNOUT
      modifies proc, `runrun, `runout
      ensures Inv(proc[..], runin, runout)
      ensures forall i :: 0 <= i < proc.Length ==> proc[i].wchan != c
      ensures forall i :: 0 < i < proc.Length ==>
                proc[i] == if old(proc[i]).wchan == c then Awake(old(proc[i])) else old(proc[i])
    {
      WokenKeepsInv(proc[..], runin, runout, c);
      Wakeup(c);
    }

    /** What the clock does once a second. */
    method Second()
      requires Inv(proc[..], runin, runout)
      modifies proc, `runrun, `runin, `runout
      ensures Inv(proc[..], runin, runout) && proc[0].wchan != RUNIN
    {
      if runin != 0 {
        WokenKeepsInv(proc[..], runin, runout, RUNIN);
        runin := 0;
        Wakeup(RUNIN);
      }
    }

    /** The end of `xswap`: a process is out, and the scheduler is told. */
    method PutOut(p: nat)
      requires Inv(proc[..], runin, runout) && 0 < p < proc.Length
      modifies proc, `runrun, `runout
      ensures Inv(proc[..], runin, runout) && !proc[p].loaded && proc[0].wchan != RUNOUT
      ensures proc[p].stat == old(proc[p]).stat
    {
      proc[p] := proc[p].(loaded := false);
      proc[p] := proc[p].(time := 0);
      ghost var ps := proc[..];
      if runout != 0 {
        runout := 0;
        Wakeup(RUNOUT);
      }
      assert proc[..] == if old(runout) != 0 then Woken(ps, 0, RUNOUT, |ps|) else ps;
    }

    /** Which process has waited longest to be brought in. */
    method FindReady() returns (p: nat, n: int)
      requires Inv(proc[..], runin, runout)
      ensures p < proc.Length && (n == -1 <==> forall i :: 0 <= i < proc.Length ==> !Ready(proc[i]))
      ensures n != -1 ==> Longest(proc[..], p, Ready) && n == proc[p].time
    {
      p, n := 0, -1;
      var i := 0;
      while i < proc.Length
        invariant i <= proc.Length && n >= -1 && p < proc.Length
        invariant n == -1 ==> forall j :: 0 <= j < i ==> !Ready(proc[j])
        invariant n != -1 ==> Longest(proc[..i], p, Ready) && n == proc[p].time
      {
        if proc[i].stat == Run && !proc[i].loaded && proc[i].time > n {
          p, n := i, proc[i].time;
        }
        i := i + 1;
      }
      assert proc[..i] == proc[..];
    }

    /** The first process that is in core and need not be. */
    method FindEasy() returns (p: nat)
      ensures p <= proc.Length && (p < proc.Length ==> Easy(proc[p]))
      ensures forall i :: 0 <= i < p ==> !Easy(proc[i])
    {
      p := 0;
      while p < proc.Length
        invariant p <= proc.Length && forall i :: 0 <= i < p ==> !Easy(proc[i])
      {
        if proc[p].loaded && !proc[p].locked && (proc[p].stat == Wait || proc[p].stat == Stopped) { return; }
        p := p + 1;
      }
    }

    /** Which of the others has been in core longest. */
    method FindOldest() returns (p: nat, n: int)
      requires Inv(proc[..], runin, runout)
      ensures n == -1 <==> forall i :: 0 <= i < proc.Length ==> !Other(proc[i])
      ensures n != -1 ==> Longest(proc[..], p, Other) && n == proc[p].time
    {
      p, n := 0, -1;
      var i := 0;
      while i < proc.Length
        invariant i <= proc.Length && n >= -1
        invariant n == -1 ==> forall j :: 0 <= j < i ==> !Other(proc[j])
        invariant n != -1 ==> Longest(proc[..i], p, Other) && n == proc[p].time
      {
        if proc[i].loaded && !proc[i].locked && (proc[i].stat == Run || proc[i].stat == Sleep) && proc[i].time > n {
          p, n := i, proc[i].time;
        }
        i := i + 1;
      }
      assert proc[..i] == proc[..];
    }

    /** Core for a process, and for its text if that is in nobody's core: both or
        neither. */
    method FindCore(p: nat, text: Text, coremap: Rmap.Map) returns (ok: bool, a: int, ta: int)
      requires Inv(proc[..], runin, runout) && p < proc.Length && coremap.Valid()
      requires proc[p].text >= 0 && text.ccount == 0 ==> 0 < text.size < Rmap.UNITS
      modifies coremap, coremap.m
      ensures coremap.Valid()
      ensures Placed(old(coremap.runs), coremap.runs, proc[p].size, if proc[p].text >= 0
                     && text.ccount == 0 then text.size else 0, ok, a, ta)
    {
      hide Rmap.Canonical, Rmap.InUse, Rmap.Taken, Rmap.Given, Rmap.FirstFit;
      ghost var runs := coremap.runs;
      ghost var k := Rmap.FirstFit(runs, proc[p].size, 0);
      ta := 0;
      a := coremap.Malloc(proc[p].size);
      if a == 0 {
        return false, a, ta;
      }
      if proc[p].text < 0 || text.ccount != 0 {
        return true, a, ta;
      }
      ta := coremap.Malloc(text.size);
      if ta != 0 {
        return true, a, ta;
      }
      UnitsOf(runs, k, proc[p].size);
      coremap.Mfree(proc[p].size, a);
      ok := false;
    }

    /** Someone is put out to make room, or the scheduler waits. */
    method MakeRoom(n: int, need: seq<nat>, swapmap: Rmap.Map) returns (r: Choice)
      requires Inv(proc[..], runin, runout) && proc[0].stat == Run && |need| == proc.Length && swapmap.Valid()
      requires forall i :: 0 <= i < proc.Length ==> 0 < need[i] < Rmap.UNITS
      modifies proc, `runrun, `runin, `runout, swapmap, swapmap.m
      ensures Inv(proc[..], runin, runout) && swapmap.Valid() && !r.In?
      ensures r.Sleeps? ==> proc[0].wchan == RUNIN && swapmap.runs == old(swapmap.runs)
      ensures r.Sleeps? ==> forall v: nat :: Victim(old(proc[..]), n, v) ==>
                Rmap.FirstFit(old(swapmap.runs), need[v], 0) == |old(swapmap.runs)|
      ensures r.Out? ==>
                Victim(old(proc[..]), n, r.p) && proc[..] == old(proc[..])[r.p := old(proc[r.p]).(loaded := false)]
                         && Placed(old(swapmap.runs), swapmap.runs, need[r.p], 0, true, r.a, 0)
    {
      hide Rmap.Canonical, Rmap.Taken, Rmap.FirstFit;
      var v := FindEasy();
      if v == proc.Length {
        var age := -1;
        if n >= 3 {
          v, age := FindOldest();
        }
        if age < 2 {
          NoVictim(proc[..], n, v, age);
          WaitIn();
          return Sleeps;
        }
      }
      OneVictim(proc[..], n, v);
      var a := swapmap.Malloc(need[v]);
      if a == 0 {
        WaitIn();
        return Sleeps;
      }
      proc[v] := proc[v].(loaded := false);
      return Out(v, a);
    }

    method WaitIn()
      requires Inv(proc[..], runin, runout) && proc[0].stat == Run
      modifies proc, `runrun, `runin, `runout
      ensures Inv(proc[..], runin, runout) && proc[0].wchan == RUNIN
    {
      runin := runin + 1;
      GoToSleep(0, RUNIN, PSWP);
    }

    /** Once round the scheduler's loop, up to what it starts. */
    method Round(texts: seq<Text>, need: seq<nat>, coremap: Rmap.Map, swapmap: Rmap.Map) returns (r: Choice, p: nat)
      requires Inv(proc[..], runin, runout) && proc[0].stat == Run && |need| == proc.Length
      requires coremap.Valid() && swapmap.Valid() && coremap != swapmap && coremap.m != swapmap.m
      requires forall i :: 0 <= i < proc.Length ==> proc[i].text < |texts| && 0 < need[i] < Rmap.UNITS
      requires forall i :: 0 <= i < |texts| ==> 0 < texts[i].size < Rmap.UNITS
      modifies proc, `runrun, `runin, `runout, coremap, coremap.m, swapmap, swapmap.m
      ensures Inv(proc[..], runin, runout) && coremap.Valid() && swapmap.Valid()
      ensures p < proc.Length
      ensures (forall i :: 0 <= i < proc.Length ==> !Ready(old(proc[i]))) ==>
                r.Sleeps? && proc[0].wchan == RUNOUT && coremap.runs == old(coremap.runs)
                    && swapmap.runs == old(swapmap.runs)
      ensures (exists i :: 0 <= i < proc.Length && Ready(old(proc[i]))) ==>
                && Longest(old(proc[..]), p, Ready)
                && Placed(old(coremap.runs), coremap.runs, old(proc[p]).size, TextNeed(old(proc[p]), texts), r.In?,
                          if r.In? then r.a else 0, if r.In? then r.ta else 0)
      ensures (exists i :: 0 <= i < proc.Length && Ready(old(proc[i]))) && r.In? ==>
                r.p == p && swapmap.runs == old(swapmap.runs) && proc[..] == old(proc[..])
      ensures (exists i :: 0 <= i < proc.Length && Ready(old(proc[i]))) && r.Sleeps? ==>
                && proc[0].wchan == RUNIN && swapmap.runs == old(swapmap.runs)
                && forall v: nat :: Victim(old(proc[..]), old(proc[p]).time, v) ==>
                     Rmap.FirstFit(old(swapmap.runs), need[v], 0) == |old(swapmap.runs)|
      ensures (exists i :: 0 <= i < proc.Length && Ready(old(proc[i]))) && r.Out? ==>
                && Victim(old(proc[..]), old(proc[p]).time, r.p)
                && proc[..] == old(proc[..])[r.p := old(proc[r.p]).(loaded := false)]
                && Placed(old(swapmap.runs), swapmap.runs, need[r.p], 0, true, r.a, 0)
    {
      hide Rmap.Canonical, Rmap.Rep, Rmap.Taken, Rmap.FirstFit, Placed, Victim, Inv;
      var n;
      p, n := FindReady();
      if n == -1 {
        NoneReady();
        return Sleeps, p;
      }
      var text := if proc[p].text >= 0 then texts[proc[p].text] else Text(0, 0);
      var ok, a, ta := FindCore(p, text, coremap);
      if ok {
        return In(p, a, ta), p;
      }
      NotPlaced(old(coremap.runs), coremap.runs, proc[p].size, TextNeed(proc[p], texts), a, ta);
      r := MakeRoom(n, need, swapmap);
    }

    method NoneReady()
      requires Inv(proc[..], runin, runout) && proc[0].stat == Run
      requires forall i :: 0 <= i < proc.Length ==> !Ready(proc[i])
      modifies proc, `runrun, `runin, `runout
      ensures Inv(proc[..], runin, runout) && proc[0].wchan == RUNOUT
    {
      runout := runout + 1;
      GoToSleep(0, RUNOUT, PSWP);
    }
  }

  /** Who is put out: the first that need not be in core; failing that, for one
      that has waited three seconds, the one longest in core if that is two. */
  ghost predicate Victim(ps: seq<Proc>, n: int, v: nat) {
    && v < |ps|
    && if exists i :: 0 <= i < |ps| && Easy(ps[i])
       then Easy(ps[v]) && forall i :: 0 <= i < v ==> !Easy(ps[i])
       else n >= 3 && Longest(ps, v, Other) && ps[v].time >= 2
  }

  lemma NoVictim(ps: seq<Proc>, n: int, v: nat, age: int)
    requires forall i :: 0 <= i < |ps| ==> !Easy(ps[i])
    requires n < 3 || age == -1 || (Longest(ps, v, Other) && age == ps[v].time)
    requires age < 2 && (age == -1 && n >= 3 ==> forall i :: 0 <= i < |ps| ==> !Other(ps[i]))
    ensures forall w: nat :: !Victim(ps, n, w)
  {
  }

  lemma OneVictim(ps: seq<Proc>, n: int, v: nat)
    requires Victim(ps, n, v)
    ensures forall w: nat :: Victim(ps, n, w) ==> w == v
  {
  }

  /** How much core a process's text needs to be brought in with it. */
  function TextNeed(p: Proc, texts: seq<Text>): int
    requires p.text < |texts|
  {
    if p.text >= 0 && texts[p.text].ccount == 0 then texts[p.text].size else 0
  }

  /** `size` units at `a`, and `extra`, if any, at `ta`, come off the map by first
      fit; or there is not room for both, and the map is as it was. */
  ghost predicate Placed(runs: seq<Rmap.Entry>, runs': seq<Rmap.Entry>, size: int, extra: int, ok: bool, a: int,
                         ta: int) {
    var k := Rmap.FirstFit(runs, size, 0);
    if k == |runs| then !ok && runs' == runs
    else
      var t := Rmap.Taken(runs, k, size);
      if extra == 0 then ok && a == runs[k].addr && runs' == t
      else
        var x := Rmap.FirstFit(t, extra, 0);
        if x == |t| then !ok && runs' == runs
        else ok && a == runs[k].addr && ta == t[x].addr && runs' == Rmap.Taken(t, x, extra)
  }

  lemma NotPlaced(runs: seq<Rmap.Entry>, runs': seq<Rmap.Entry>, size: int, extra: int, a: int, ta: int)
    requires Placed(runs, runs', size, extra, false, a, ta)
    ensures Placed(runs, runs', size, extra, false, 0, 0) && runs' == runs
  {
  }

  lemma UnitsOf(runs: seq<Rmap.Entry>, k: nat, size: int)
    requires Rmap.Canonical(runs) && k < |runs| && 0 < size <= runs[k].size
    ensures var a := runs[k].addr; 0 < a && a + size <= Rmap.UNITS
    ensures Rmap.InUse(Rmap.Taken(runs, k, size), runs[k].addr, size)
    ensures Rmap.Given(Rmap.Taken(runs, k, size), runs[k].addr, size) == runs
  {
    Rmap.TakenIs(runs, k, size);
    Rmap.TakeGive(runs, k, size);
  }
}
