/** The callout table: routines to be run after so many ticks, each entry's time
    counted from the one before it. */
module Callout {

  /** An entry of the table; a `func` of 0 ends it. */
  datatype Call = Call(time: int, func: int, arg: int)

  // ----- the table as a list

  /** Where an entry for `t` ticks on goes, looking from `i`. */
  function Place(list: seq<Call>, t: int, i: nat): (r: (nat, int))
    requires i <= |list|
    ensures i <= r.0 <= |list|
    decreases |list| - i
  {
    if i < |list| && list[i].time <= t then Place(list, t - list[i].time, i+1) else (i, t)
  }

  /** The list with an entry put in before `k`, which counts from it then. */
  function Spliced(list: seq<Call>, x: Call, k: nat): seq<Call>
    requires k <= |list|
  {
    if k == |list| then list + [x]
    else list[..k] + [x] + list[k := list[k].(time := list[k].time - x.time)][k..]
  }

  function Inserted(list: seq<Call>, c: Call): (r: seq<Call>)
    ensures |r| == |list| + 1
  {
    var (k, t) := Place(list, c.time, 0);
    Spliced(list, c.(time := t), k)
  }

  /** The first entry, from `i` on, whose time is not up. */
  function Running(list: seq<Call>, i: nat): (k: nat)
    requires i <= |list|
    ensures i <= k <= |list| && (forall j :: i <= j < k ==> list[j].time <= 0) && (k < |list| ==> list[k].time > 0)
    decreases |list| - i
  {
    if i < |list| && list[i].time <= 0 then Running(list, i+1) else i
  }

  function Ticked(list: seq<Call>): (r: seq<Call>)
    ensures |r| == |list|
  {
    var k := Running(list, 0);
    if k < |list| then list[k := list[k].(time := list[k].time - 1)] else list
  }

  /** The entries a routine adds, in turn. */
  function InsertAll(list: seq<Call>, cs: seq<Call>): (r: seq<Call>)
    ensures |r| == |list| + |cs|
    decreases |cs|
  {
    if cs == [] then list else InsertAll(Inserted(list, cs[0]), cs[1..])
  }

  /** What each routine adds when it runs. */
  type Calls = (int, int) -> seq<Call>

  ghost predicate Later(calls: Calls) {
    forall f, a, i :: 0 <= i < |calls(f, a)| ==> calls(f, a)[i].time >= 1 && calls(f, a)[i].func != 0
  }

  /** Everything the routines of `due` add. */
  function Added(due: seq<Call>, calls: Calls): seq<Call> {
    if due == [] then [] else Added(due[..|due|-1], calls) + calls(due[|due|-1].func, due[|due|-1].arg)
  }

  /** The list after a tick of the clock, and what ran. */
  function Clocked(list: seq<Call>, calls: Calls): (r: (seq<Call>, seq<Call>)) {
    var l := Ticked(list);
    var k := Running(l, 0);
    (InsertAll(l, Added(l[..k], calls))[k..], l[..k])
  }

  // ----- insertions leave what is due alone

  lemma {:induction false} PlaceBeyond(list: seq<Call>, t: int, i: nat, k: nat)
    requires i <= k <= |list| && t >= 1 && (forall j :: i <= j < k ==> list[j].time <= 0)
    ensures Place(list, t, i).0 >= k && (Place(list, t, i).0 == k ==> Place(list, t, i).1 >= 1)
    decreases k - i
  {
    if i < k {
      PlaceBeyond(list, t - list[i].time, i+1, k);
    } else if i < |list| && list[i].time <= t {
      assert Place(list, t, i).0 > k;
    }
  }

  lemma InsertedBeyond(list: seq<Call>, c: Call, k: nat)
    requires k == Running(list, 0) && c.time >= 1
    ensures Inserted(list, c)[..k] == list[..k] && Running(Inserted(list, c), 0) == k
  {
    PlaceBeyond(list, c.time, 0, k);
    var r := Inserted(list, c);
    assert r[..k] == list[..k];
    RunningIs(r, 0, k);
  }

  lemma {:induction false} RunningIs(list: seq<Call>, i: nat, k: nat)
    requires i <= k <= |list| && (forall j :: i <= j < k ==> list[j].time <= 0) && (k < |list| ==> list[k].time > 0)
    ensures Running(list, i) == k
    decreases k - i
  {
    if i < k { RunningIs(list, i+1, k); }
  }

  lemma {:induction false} AllBeyond(list: seq<Call>, cs: seq<Call>, k: nat)
    requires k == Running(list, 0) && forall i :: 0 <= i < |cs| ==> cs[i].time >= 1
    ensures InsertAll(list, cs)[..k] == list[..k] && Running(InsertAll(list, cs), 0) == k
    decreases |cs|
  {
    if cs != [] {
      InsertedBeyond(list, cs[0], k);
      AllBeyond(Inserted(list, cs[0]), cs[1..], k);
    }
  }

  lemma {:induction false} InsertAllConcat(list: seq<Call>, a: seq<Call>, b: seq<Call>)
    ensures InsertAll(list, a + b) == InsertAll(InsertAll(list, a), b)
    decreases |a|
  {
    if a == [] {
      assert a + b == b;
    } else {
      assert (a + b)[1..] == a[1..] + b;
      InsertAllConcat(Inserted(list, a[0]), a[1..], b);
    }
  }

  // ----- deadlines

  /** A routine to run, when it is due, when it was asked for and how many had been
      asked for before. */
  datatype Timer = Timer(deadline: int, func: int, arg: int, asked: int, id: nat)

  /** Due sooner, or asked for sooner. */
  predicate Before(x: Timer, y: Timer) {
    x.deadline < y.deadline || (x.deadline == y.deadline && x.id < y.id)
  }

  ghost predicate InOrder(ts: seq<Timer>) {
    forall i, j :: 0 <= i < j < |ts| ==> Before(ts[i], ts[j])
  }

  function Max(a: int, b: int): int { if a >= b then a else b }

  /** The moment entry `i` counts from. */
  function From(now: int, ts: seq<Timer>, i: nat): int
    requires i <= |ts|
  {
    if i == 0 then now else Max(ts[i-1].deadline, now)
  }

  /** At time `now` the list stands for these timers. */
  ghost predicate Stands(list: seq<Call>, now: int, ts: seq<Timer>) {
    && |list| == |ts| && InOrder(ts)
    && forall i :: 0 <= i < |list| ==>
         list[i] == Call(Max(ts[i].deadline, now) - From(now, ts, i), ts[i].func, ts[i].arg)
  }

  /** Put in after all that are not due later. */
  function Set(ts: seq<Timer>, x: Timer): (r: seq<Timer>)
    ensures |r| == |ts| + 1
  {
    var k := NotAfter(ts, x.deadline, 0);
    ts[..k] + [x] + ts[k..]
  }

  function NotAfter(ts: seq<Timer>, d: int, i: nat): (k: nat)
    requires i <= |ts|
    ensures i <= k <= |ts| && (forall j :: i <= j < k ==> ts[j].deadline <= d) && (k < |ts| ==> ts[k].deadline > d)
    decreases |ts| - i
  {
    if i < |ts| && ts[i].deadline <= d then NotAfter(ts, d, i+1) else i
  }

  lemma {:induction false} PlaceIs(list: seq<Call>, now: int, ts: seq<Timer>, d: int, i: nat)
    requires Stands(list, now, ts) && i <= |ts| && d >= now && (i > 0 ==> ts[i-1].deadline <= d)
    ensures var (k, t) := Place(list, d - From(now, ts, i), i);
            k == NotAfter(ts, d, i) && t == d - From(now, ts, k)
    decreases |ts| - i
  {
    if i < |ts| && ts[i].deadline <= d { PlaceIs(list, now, ts, d, i+1); }
  }

  /** A timeout of no ticks or more adds its timer and moves no other. */
  lemma TimeoutStands(list: seq<Call>, now: int, ts: seq<Timer>, c: Call, id: nat)
    requires Stands(list, now, ts) && c.time >= 0 && (forall i :: 0 <= i < |ts| ==> ts[i].id < id)
    ensures Stands(Inserted(list, c), now, Set(ts, Timer(now + c.time, c.func, c.arg, now, id)))
  {
    var x := Timer(now + c.time, c.func, c.arg, now, id);
    PlaceIs(list, now, ts, now + c.time, 0);
    SetInOrder(ts, x);
    hide InOrder, Place, NotAfter, Inserted, Set;
    var l, r := Inserted(list, c), Set(ts, x);
    forall i | 0 <= i < |l| ensures l[i] == Call(Max(r[i].deadline, now) - From(now, r, i), r[i].func, r[i].arg) {
      TimeoutEntry(list, now, ts, c, x, i);
    }
  }

  lemma TimeoutEntry(list: seq<Call>, now: int, ts: seq<Timer>, c: Call, x: Timer, i: nat)
    requires Stands(list, now, ts) && i <= |ts| && x.deadline == now + c.time >= now && x.func == c.func
    requires x.arg == c.arg
    requires var (k, t) := Place(list, c.time, 0);
             k == NotAfter(ts, x.deadline, 0) && t == x.deadline - From(now, ts, k)
    ensures var r := Set(ts, x);
            Inserted(list, c)[i] == Call(Max(r[i].deadline, now) - From(now, r, i), r[i].func, r[i].arg)
  {
    hide InOrder, Place, Inserted, Set;
    InsertedAt(list, c, i);
    SetAt(ts, x, i);
    if i > 0 { SetAt(ts, x, i-1); }
  }

  lemma ConcatAt<T>(a: seq<T>, e: T, d: seq<T>, i: nat)
    requires i < |a| + 1 + |d|
    ensures (a + [e] + d)[i] == if i < |a| then a[i] else if i == |a| then e else d[i - |a| - 1]
  {
  }

  lemma InsertedAt(list: seq<Call>, c: Call, i: nat)
    requires i <= |list|
    ensures var (k, t) := Place(list, c.time, 0);
            Inserted(list, c)[i] ==
            if i < k then list[i] else if i == k then c.(time := t)
            else if i == k + 1 then list[k].(time := list[k].time - t) else list[i-1]
  {
    hide Place;
    var r := Place(list, c.time, 0);
    assert Inserted(list, c) == Spliced(list, c.(time := r.1), r.0);
    hide Inserted;
    SplicedAt(list, c.(time := r.1), r.0, i);
  }

  lemma SplicedAt(list: seq<Call>, x: Call, k: nat, i: nat)
    requires k <= |list| && i <= |list|
    ensures |Spliced(list, x, k)| == |list| + 1
    ensures Spliced(list, x, k)[i] ==
            if i < k then list[i] else if i == k then x
            else if i == k + 1 then list[k].(time := list[k].time - x.time) else list[i-1]
  {
    if k < |list| {
      var d := list[k := list[k].(time := list[k].time - x.time)];
      ConcatAt(list[..k], x, d[k..], i);
      if i > k { assert d[k..][i - k - 1] == d[i - 1]; }
    }
  }

  lemma SetAt(ts: seq<Timer>, x: Timer, i: nat)
    requires i <= |ts|
    ensures var k := NotAfter(ts, x.deadline, 0);
            Set(ts, x)[i] == if i < k then ts[i] else if i == k then x else ts[i-1]
  {
    hide NotAfter;
    ConcatAt(ts[..NotAfter(ts, x.deadline, 0)], x, ts[NotAfter(ts, x.deadline, 0)..], i);
  }

  lemma SetInOrder(ts: seq<Timer>, x: Timer)
    requires InOrder(ts) && forall i :: 0 <= i < |ts| ==> ts[i].id < x.id
    ensures InOrder(Set(ts, x))
  {
    var k := NotAfter(ts, x.deadline, 0);
    forall i | k <= i < |ts| ensures ts[i].deadline > x.deadline {
      assert i == k || Before(ts[k], ts[i]);
    }
  }

  /** How many are due at `now`. */
  function DueBy(ts: seq<Timer>, now: int): (k: nat)
    ensures k <= |ts| && (forall j :: 0 <= j < k ==> ts[j].deadline <= now) && (k < |ts| ==> ts[k].deadline > now)
  {
    NotAfter(ts, now, 0)
  }

  ghost predicate NonePast(ts: seq<Timer>, now: int) {
    forall i :: 0 <= i < |ts| ==> ts[i].deadline >= now
  }

  /** The decrement: the same timers, one tick later. */
  lemma TickStands(list: seq<Call>, now: int, ts: seq<Timer>)
    requires Stands(list, now, ts) && NonePast(ts, now)
    ensures Stands(Ticked(list), now + 1, ts)
    ensures Running(Ticked(list), 0) == DueBy(ts, now + 1)
  {
    hide NotAfter, Running, Ticked, InOrder;
    RunningIsDue(list, now, ts);
    AllAfter(ts, now);
    forall i | 0 <= i < |ts|
      ensures Ticked(list)[i] == Call(Max(ts[i].deadline, now + 1) - From(now + 1, ts, i), ts[i].func, ts[i].arg)
    {
      TickEntry(list, now, ts, i);
    }
    RunningIsDue(Ticked(list), now + 1, ts);
  }

  lemma TickEntry(list: seq<Call>, now: int, ts: seq<Timer>, i: nat)
    requires Stands(list, now, ts) && NonePast(ts, now) && i < |ts|
    requires Running(list, 0) == DueBy(ts, now) && forall j :: DueBy(ts, now) <= j < |ts| ==> ts[j].deadline > now
    ensures Ticked(list)[i] == Call(Max(ts[i].deadline, now + 1) - From(now + 1, ts, i), ts[i].func, ts[i].arg)
  {
    hide InOrder, NotAfter, Running;
  }

  /** The entries whose time is up are the timers that are due. */
  lemma RunningIsDue(list: seq<Call>, now: int, ts: seq<Timer>)
    requires Stands(list, now, ts)
    ensures Running(list, 0) == DueBy(ts, now)
  {
    AllAfter(ts, now);
    hide NotAfter, InOrder;
    RunningIs(list, 0, DueBy(ts, now));
  }

  lemma AllAfter(ts: seq<Timer>, d: int)
    requires InOrder(ts)
    ensures forall i :: NotAfter(ts, d, 0) <= i < |ts| ==> ts[i].deadline > d
  {
    var k := NotAfter(ts, d, 0);
    forall i | k <= i < |ts| ensures ts[i].deadline > d {
      assert i == k || Before(ts[k], ts[i]);
    }
  }

  /** What is due removed, the rest stand. */
  lemma RestStands(list: seq<Call>, now: int, ts: seq<Timer>, k: nat)
    requires Stands(list, now, ts) && k <= |ts| && forall i :: 0 <= i < k ==> ts[i].deadline <= now
    ensures Stands(list[k..], now, ts[k..])
  {
    var l, r := list[k..], ts[k..];
    forall i | 0 <= i < |l| ensures l[i] == Call(Max(r[i].deadline, now) - From(now, r, i), r[i].func, r[i].arg) {
      assert l[i] == list[k+i] && r[i] == ts[k+i];
    }
  }

  // ----- the timers

  /** The timers themselves: those set and not yet run, those that have run and
      when, and all that were ever asked for. */
  datatype Timers = Timers(now: int, ts: seq<Timer>, ran: seq<(int, Timer)>, all: seq<Timer>)

  function Ask(s: Timers, c: Call): (r: Timers)
    ensures r.now == s.now && r.ran == s.ran && |r.ts| == |s.ts| + 1
  {
    var x := Timer(s.now + c.time, c.func, c.arg, s.now, |s.all|);
    s.(ts := Set(s.ts, x), all := s.all + [x])
  }

  function AskAll(s: Timers, cs: seq<Call>): (r: Timers)
    ensures r.now == s.now && r.ran == s.ran && |r.ts| == |s.ts| + |cs|
    decreases |cs|
  {
    if cs == [] then s else AskAll(Ask(s, cs[0]), cs[1..])
  }

  /** The entries of a list that name these timers. */
  function Names(ts: seq<Timer>): (r: seq<Call>)
    ensures |r| == |ts| && forall i :: 0 <= i < |ts| ==> r[i].func == ts[i].func && r[i].arg == ts[i].arg
  {
    seq(|ts|, i requires 0 <= i < |ts| => Call(0, ts[i].func, ts[i].arg))
  }

  function Stamped(now: int, due: seq<Timer>): (r: seq<(int, Timer)>)
    ensures |r| == |due| && forall i :: 0 <= i < |due| ==> r[i] == (now, due[i])
  {
    seq(|due|, i requires 0 <= i < |due| => (now, due[i]))
  }

  /** One tick: those due run in order, and what they ask for is set. */
  function Tick(s: Timers, calls: Calls): Timers {
    var now, k := s.now + 1, DueBy(s.ts, s.now + 1);
    var s1 := AskAll(s.(now := now, ran := s.ran + Stamped(now, s.ts[..k])), Added(Names(s.ts[..k]), calls));
    s1.(ts := s1.ts[k..])
  }

  /** When a timer runs: when it is due, or on the first tick after it was set. */
  function Due(x: Timer): int { Max(x.deadline, x.asked + 1) }

  /** Which of two runs comes first. */
  predicate Sooner(a: (int, Timer), b: (int, Timer)) {
    a.0 < b.0 || (a.0 == b.0 && Before(a.1, b.1))
  }

  /** Every timer asked for is either still set, before its time, or has run, at its
      time and once. */
  ghost predicate OnTime(s: Timers) {
    && InOrder(s.ts)
    && (forall i :: 0 <= i < |s.all| ==>
          s.all[i].id == i && s.all[i].asked <= s.now && s.all[i].deadline >= s.all[i].asked)
    && (forall x :: x in s.ts <==> x in s.all && Due(x) > s.now)
    && (forall a :: a in s.ran <==> a.1 in s.all && a.0 == Due(a.1) <= s.now)
    && (forall i, j :: 0 <= i < j < |s.ran| ==> Sooner(s.ran[i], s.ran[j]))
  }

  lemma SetHas(ts: seq<Timer>, x: Timer)
    ensures forall y :: y in Set(ts, x) <==> y == x || y in ts
  {
    var k := NotAfter(ts, x.deadline, 0);
    assert ts == ts[..k] + ts[k..];
  }

  lemma AskOnTime(s: Timers, c: Call)
    requires OnTime(s) && c.time >= 0
    ensures OnTime(Ask(s, c))
  {
    var x := Timer(s.now + c.time, c.func, c.arg, s.now, |s.all|);
    forall i | 0 <= i < |s.ts| ensures s.ts[i].id < x.id {
      assert s.ts[i] in s.ts;
    }
    SetInOrder(s.ts, x);
    SetHas(s.ts, x);
    hide InOrder, Set, Before;
  }

  lemma {:induction false} AskAllOnTime(s: Timers, cs: seq<Call>)
    requires OnTime(s) && forall i :: 0 <= i < |cs| ==> cs[i].time >= 0
    ensures OnTime(AskAll(s, cs))
    decreases |cs|
  {
    hide OnTime;
    if cs != [] {
      AskOnTime(s, cs[0]);
      AskAllOnTime(Ask(s, cs[0]), cs[1..]);
    }
  }

  /** What is asked for at least one tick ahead goes in beyond what is due. */
  lemma {:induction false} AskedBeyond(s: Timers, cs: seq<Call>, k: nat)
    requires k == DueBy(s.ts, s.now) && forall i :: 0 <= i < |cs| ==> cs[i].time >= 1
    ensures AskAll(s, cs).ts[..k] == s.ts[..k] && DueBy(AskAll(s, cs).ts, s.now) == k
    decreases |cs|
  {
    if cs != [] {
      SetBeyond(s.ts, Timer(s.now + cs[0].time, cs[0].func, cs[0].arg, s.now, |s.all|), s.now);
      AskedBeyond(Ask(s, cs[0]), cs[1..], k);
    }
  }

  lemma SetBeyond(ts: seq<Timer>, x: Timer, now: int)
    requires x.deadline > now
    ensures var k := DueBy(ts, now); Set(ts, x)[..k] == ts[..k] && DueBy(Set(ts, x), now) == k
  {
    var k := DueBy(ts, now);
    var p := NotAfter(ts, x.deadline, 0);
    NotAfterLater(ts, now, x.deadline, 0);
    NotAfterIs(Set(ts, x), now, 0, k);
  }

  lemma {:induction false} NotAfterLater(ts: seq<Timer>, d: int, e: int, i: nat)
    requires i <= |ts| && d <= e
    ensures NotAfter(ts, d, i) <= NotAfter(ts, e, i)
    decreases |ts| - i
  {
    if i < |ts| && ts[i].deadline <= d { NotAfterLater(ts, d, e, i+1); }
  }

  lemma {:induction false} AtLeast(ts: seq<Timer>, d: int, i: nat, k: nat)
    requires i <= k <= |ts| && forall j :: i <= j < k ==> ts[j].deadline <= d
    ensures NotAfter(ts, d, i) >= k
    decreases k - i
  {
    if i < k { AtLeast(ts, d, i+1, k); }
  }

  lemma {:induction false} NotAfterIs(ts: seq<Timer>, d: int, i: nat, k: nat)
    requires i <= k <= |ts| && (forall j :: i <= j < k ==> ts[j].deadline <= d) && (k < |ts| ==> ts[k].deadline > d)
    ensures NotAfter(ts, d, i) == k
    decreases k - i
  {
    if i < k { NotAfterIs(ts, d, i+1, k); }
  }

  lemma {:induction false} AddedLater(due: seq<Call>, calls: Calls)
    requires Later(calls)
    ensures forall i :: 0 <= i < |Added(due, calls)| ==> Added(due, calls)[i].time >= 1
  {
    if due != [] { AddedLater(due[..|due|-1], calls); }
  }

  /** The timers at the tick, what is due gone over to those that have run. */
  lemma DueRun(s: Timers)
    requires OnTime(s)
    ensures var now, k := s.now + 1, DueBy(s.ts, s.now + 1); var ran := s.ran + Stamped(now, s.ts[..k]);
            && InOrder(s.ts[k..])
            && (forall x :: x in s.ts[k..] <==> x in s.all && Due(x) > now)
            && (forall a :: a in ran <==> a.1 in s.all && a.0 == Due(a.1) <= now)
            && (forall i, j :: 0 <= i < j < |ran| ==> Sooner(ran[i], ran[j]))
  {
    var now, k := s.now + 1, DueBy(s.ts, s.now + 1);
    var ran := s.ran + Stamped(now, s.ts[..k]);
    hide OnTime, NotAfter, InOrder, Stamped, Due, DueBy, Sooner;
    DueIsNow(s, k);
    forall x ensures x in s.ts[k..] <==> x in s.all && Due(x) > now {
      RestHas(s, k, x);
    }
    forall a ensures a in ran <==> a.1 in s.all && a.0 == Due(a.1) <= now {
      RanHas(s, k, a);
    }
    RanInOrder(s, now, s.ts[..k]);
  }

  lemma RestHas(s: Timers, k: nat, x: Timer)
    requires OnTime(s) && k <= |s.ts|
    requires forall i :: 0 <= i < |s.ts| ==> (i < k <==> Due(s.ts[i]) == s.now + 1)
    ensures x in s.ts[k..] <==> x in s.all && Due(x) > s.now + 1
  {
    assert x in s.ts <==> x in s.all && Due(x) > s.now;
    hide OnTime, Due;
    if x in s.ts && Due(x) > s.now + 1 {
      var i :| 0 <= i < |s.ts| && s.ts[i] == x;
      assert s.ts[k..][i - k] == x;
    }
    if x in s.ts[k..] {
      var i :| 0 <= i < |s.ts[k..]| && s.ts[k..][i] == x;
      assert s.ts[k + i] == x && x in s.ts;
    }
  }

  lemma RanHas(s: Timers, k: nat, a: (int, Timer))
    requires OnTime(s) && k <= |s.ts|
    requires forall i :: 0 <= i < |s.ts| ==> (i < k <==> Due(s.ts[i]) == s.now + 1)
    ensures a in s.ran + Stamped(s.now + 1, s.ts[..k]) <==> a.1 in s.all && a.0 == Due(a.1) <= s.now + 1
  {
    assert a.1 in s.ts <==> a.1 in s.all && Due(a.1) > s.now;
    assert a in s.ran <==> a.1 in s.all && a.0 == Due(a.1) <= s.now;
    hide OnTime, Due, Stamped;
    StampedHas(s.now + 1, s.ts[..k], a);
    if a.1 in s.all && Due(a.1) == s.now + 1 {
      var i :| 0 <= i < |s.ts| && s.ts[i] == a.1;
      assert s.ts[..k][i] == a.1;
    }
  }

  lemma DueIsNow(s: Timers, k: nat)
    requires OnTime(s) && k <= |s.ts| && k == DueBy(s.ts, s.now + 1)
    ensures forall i :: 0 <= i < |s.ts| ==> (i < k <==> Due(s.ts[i]) == s.now + 1)
    ensures InOrder(s.ts[..k]) && InOrder(s.ts[k..])
  {
    AllAfter(s.ts, s.now + 1);
    forall i | 0 <= i < |s.ts| ensures i < k <==> Due(s.ts[i]) == s.now + 1 {
      assert s.ts[i] in s.ts;
    }
  }

  lemma StampedHas(now: int, due: seq<Timer>, a: (int, Timer))
    ensures a in Stamped(now, due) <==> a.0 == now && a.1 in due
  {
    if a.0 == now && a.1 in due {
      var i :| 0 <= i < |due| && due[i] == a.1;
      assert Stamped(now, due)[i] == a;
    }
  }

  lemma RanInOrder(s: Timers, now: int, due: seq<Timer>)
    requires now == s.now + 1 && InOrder(due) && OnTime(s)
    ensures var ran := s.ran + Stamped(now, due); forall i, j :: 0 <= i < j < |ran| ==> Sooner(ran[i], ran[j])
  {
    var ran := s.ran + Stamped(now, due);
    forall i, j | 0 <= i < j < |ran| ensures Sooner(ran[i], ran[j]) {
      if i < |s.ran| <= j {
        assert s.ran[i] in s.ran;
      } else if i >= |s.ran| {
        assert Before(due[i - |s.ran|], due[j - |s.ran|]);
      }
    }
  }

  /** Asking before or after what is due is taken off comes to the same. */
  lemma {:induction false} AskAfterTaking(s: Timers, cs: seq<Call>, k: nat)
    requires k == DueBy(s.ts, s.now) && forall i :: 0 <= i < |cs| ==> cs[i].time >= 1
    ensures var r := AskAll(s, cs); r.(ts := r.ts[k..]) == AskAll(s.(ts := s.ts[k..]), cs)
    decreases |cs|
  {
    hide Set, DueBy, NotAfter;
    if cs != [] {
      var x := Timer(s.now + cs[0].time, cs[0].func, cs[0].arg, s.now, |s.all|);
      SetBeyond(s.ts, x, s.now);
      SetAfterTaking(s.ts, x, k);
      AskAfterTaking(Ask(s, cs[0]), cs[1..], k);
      assert Ask(s, cs[0]).(ts := Set(s.ts, x)[k..]) == Ask(s.(ts := s.ts[k..]), cs[0]);
    }
  }

  lemma SetAfterTaking(ts: seq<Timer>, x: Timer, k: nat)
    requires k <= |ts| && forall i :: 0 <= i < k ==> ts[i].deadline <= x.deadline
    ensures Set(ts, x)[k..] == Set(ts[k..], x)
  {
    var p := NotAfter(ts, x.deadline, 0);
    AtLeast(ts, x.deadline, 0, k);
    NotAfterIs(ts[k..], x.deadline, 0, p - k);
  }

  /** A tick keeps everything on time, whatever the routines ask for, if it is at
      least a tick ahead. */
  lemma TickOnTime(s: Timers, calls: Calls)
    requires OnTime(s) && Later(calls)
    ensures OnTime(Tick(s, calls))
  {
    hide OnTime, Tick, AskAll, Later, Stamped, DueBy;
    TickIs(s, calls);
    RanOnTime(s);
    AddedLater(Names(s.ts[..DueBy(s.ts, s.now + 1)]), calls);
    AskAllOnTime(Ticking(s), Added(Names(s.ts[..DueBy(s.ts, s.now + 1)]), calls));
  }

  /** At the tick, what is due gone over. */
  function Ticking(s: Timers): Timers {
    var now, k := s.now + 1, DueBy(s.ts, s.now + 1);
    s.(now := now, ran := s.ran + Stamped(now, s.ts[..k]), ts := s.ts[k..])
  }

  lemma TickIs(s: Timers, calls: Calls)
    requires Later(calls)
    ensures Tick(s, calls) == AskAll(Ticking(s), Added(Names(s.ts[..DueBy(s.ts, s.now + 1)]), calls))
  {
    var now, k := s.now + 1, DueBy(s.ts, s.now + 1);
    AddedLater(Names(s.ts[..k]), calls);
    hide Later, DueBy, Added, Names, Stamped, AskAll;
    AskAfterTaking(s.(now := now, ran := s.ran + Stamped(now, s.ts[..k])), Added(Names(s.ts[..k]), calls), k);
  }

  lemma RanOnTime(s: Timers)
    requires OnTime(s)
    ensures OnTime(Ticking(s))
  {
    hide DueBy, Stamped, InOrder, Before;
    DueRun(s);
  }

  // ----- whole runs

  datatype Event = Timeout(c: Call) | Clock(calls: Calls)

  ghost predicate Allowed(e: Event) {
    match e
    case Timeout(c) => c.time >= 0
    case Clock(calls) => Later(calls)
  }

  ghost function Run(s: Timers, es: seq<Event>): Timers
    decreases |es|
  {
    if es == [] then s
    else Run(After(s, es[0]), es[1..])
  }

  ghost function After(s: Timers, e: Event): Timers {
    match e
    case Timeout(c) => Ask(s, c)
    case Clock(calls) => Tick(s, calls)
  }

  ghost function ListAfter(list: seq<Call>, e: Event): seq<Call> {
    match e
    case Timeout(c) => Inserted(list, c)
    case Clock(calls) => Clocked(list, calls).0
  }

  ghost function RunList(list: seq<Call>, es: seq<Event>): seq<Call>
    decreases |es|
  {
    if es == [] then list
    else RunList(ListAfter(list, es[0]), es[1..])
  }

  /** Everything on time, after any timeouts and ticks. */
  lemma {:induction false} RunOnTime(s: Timers, es: seq<Event>)
    requires OnTime(s) && forall i :: 0 <= i < |es| ==> Allowed(es[i])
    ensures OnTime(Run(s, es))
    decreases |es|
  {
    hide OnTime, After;
    if es != [] {
      assert Allowed(es[0]);
      EventOnTime(s, es[0]);
      RunOnTime(After(s, es[0]), es[1..]);
    }
  }

  lemma EventOnTime(s: Timers, e: Event)
    requires OnTime(s) && Allowed(e)
    ensures OnTime(After(s, e))
  {
    hide OnTime, Tick, Ask, Later;
    match e
    case Timeout(c) => AskOnTime(s, c);
    case Clock(calls) => TickOnTime(s, calls);
  }

  // ----- the list stands for the timers

  lemma {:induction false} AllStand(list: seq<Call>, s: Timers, cs: seq<Call>)
    requires Stands(list, s.now, s.ts) && OnTimeIds(s) && forall i :: 0 <= i < |cs| ==> cs[i].time >= 0
    ensures Stands(InsertAll(list, cs), s.now, AskAll(s, cs).ts) && OnTimeIds(AskAll(s, cs))
    decreases |cs|
  {
    hide Stands, OnTimeIds, Inserted, Ask;
    if cs != [] {
      AskStands(list, s, cs[0]);
      IdsGrow(s, cs[0]);
      AllStand(Inserted(list, cs[0]), Ask(s, cs[0]), cs[1..]);
    }
  }

  ghost predicate OnTimeIds(s: Timers) {
    forall i :: 0 <= i < |s.ts| ==> s.ts[i].id < |s.all|
  }

  lemma IdsGrow(s: Timers, c: Call)
    requires OnTimeIds(s)
    ensures OnTimeIds(Ask(s, c))
  {
    var x := Timer(s.now + c.time, c.func, c.arg, s.now, |s.all|);
    SetHas(s.ts, x);
    forall i | 0 <= i < |Ask(s, c).ts| ensures Ask(s, c).ts[i].id < |s.all| + 1 {
      assert Set(s.ts, x)[i] in Set(s.ts, x);
    }
  }

  /** One interrupt: the routines that run are those whose timers are due, in their
      order, and the list stands for what is left and what they asked for. */
  lemma ClockStands(list: seq<Call>, s: Timers, calls: Calls)
    requires Stands(list, s.now, s.ts) && NonePast(s.ts, s.now) && OnTimeIds(s) && Later(calls)
    ensures var due := s.ts[..DueBy(s.ts, s.now + 1)]; var ran := Clocked(list, calls).1;
            |ran| == |due| && forall i :: 0 <= i < |due| ==> ran[i].func == due[i].func && ran[i].arg == due[i].arg
    ensures Stands(Clocked(list, calls).0, s.now + 1, Tick(s, calls).ts)
  {
    hide OnTimeIds, Later, Ticked, InsertAll, AskAll, Added, InOrder, NotAfter, Running;
    var now, k := s.now + 1, DueBy(s.ts, s.now + 1);
    TickStands(list, s.now, s.ts);
    var l := Ticked(list);
    var s1 := s.(now := now, ran := s.ran + Stamped(now, s.ts[..k]));
    SameAdded(l[..k], Names(s.ts[..k]), calls);
    var cs := Added(l[..k], calls);
    AddedLater(l[..k], calls);
    IdsSame(s, s1);
    hide Stands, DueBy;
    AllStand(l, s1, cs);
    AskedBeyond(s1, cs, k);
    RestStands(InsertAll(l, cs), now, AskAll(s1, cs).ts, k);
  }

  lemma IdsSame(s: Timers, s1: Timers)
    requires OnTimeIds(s) && s1.ts == s.ts && s1.all == s.all
    ensures OnTimeIds(s1)
  {
  }

  lemma {:induction false} SameAdded(a: seq<Call>, b: seq<Call>, calls: Calls)
    requires |a| == |b| && forall i :: 0 <= i < |a| ==> a[i].func == b[i].func && a[i].arg == b[i].arg
    ensures Added(a, calls) == Added(b, calls)
  {
    if a != [] { SameAdded(a[..|a|-1], b[..|b|-1], calls); }
  }

  /** The table and the timers keep in step through any run. */
  lemma {:induction false} RunStands(list: seq<Call>, s: Timers, es: seq<Event>)
    requires Stands(list, s.now, s.ts) && OnTime(s) && forall i :: 0 <= i < |es| ==> Allowed(es[i])
    ensures Stands(RunList(list, es), Run(s, es).now, Run(s, es).ts)
    decreases |es|
  {
    hide Stands, OnTime, After, ListAfter;
    if es != [] {
      assert Allowed(es[0]);
      EventStands(list, s, es[0]);
      RunStands(ListAfter(list, es[0]), After(s, es[0]), es[1..]);
    }
  }

  lemma EventStands(list: seq<Call>, s: Timers, e: Event)
    requires Stands(list, s.now, s.ts) && OnTime(s) && Allowed(e)
    ensures Stands(ListAfter(list, e), After(s, e).now, After(s, e).ts) && OnTime(After(s, e))
  {
    hide Stands, OnTime, Tick, Ask, Inserted, Clocked, Later;
    PendingFacts(s);
    match e
    case Timeout(c) =>
      AskStands(list, s, c);
      AskOnTime(s, c);
    case Clock(calls) =>
      ClockStands(list, s, calls);
      TickOnTime(s, calls);
      TickNow(s, calls);
  }

  lemma TickNow(s: Timers, calls: Calls)
    ensures Tick(s, calls).now == s.now + 1
  {
  }

  lemma AskStands(list: seq<Call>, s: Timers, c: Call)
    requires Stands(list, s.now, s.ts) && OnTimeIds(s) && c.time >= 0
    ensures Stands(Inserted(list, c), s.now, Ask(s, c).ts)
  {
    hide Stands, Inserted, Set;
    TimeoutStands(list, s.now, s.ts, c, |s.all|);
  }

  lemma PendingFacts(s: Timers)
    requires OnTime(s)
    ensures NonePast(s.ts, s.now) && OnTimeIds(s)
  {
    forall i | 0 <= i < |s.ts| ensures s.ts[i].deadline >= s.now && s.ts[i].id < |s.all| {
      assert s.ts[i] in s.ts;
    }
  }

  /** A routine asked for `t >= 1` ticks on runs on exactly the `t`-th tick after,
      once: it has not run before that, and it has from then on. */
  lemma RunsOnTheTick(s: Timers, c: Call, es: seq<Event>)
    requires OnTime(s) && c.time >= 1 && forall i :: 0 <= i < |es| ==> Allowed(es[i])
    ensures var x := Timer(s.now + c.time, c.func, c.arg, s.now, |s.all|); var s' := Run(Ask(s, c), es);
            && (forall at :: (at, x) in s'.ran ==> at == s.now + c.time)
            && ((s.now + c.time, x) in s'.ran <==> s'.now >= s.now + c.time)
            && (forall i, j :: 0 <= i < j < |s'.ran| ==> s'.ran[i] != s'.ran[j])
  {
    hide OnTime;
    var x := Timer(s.now + c.time, c.func, c.arg, s.now, |s.all|);
    AskOnTime(s, c);
    assert x in Ask(s, c).all by { assert Ask(s, c).all[|s.all|] == x; }
    RunOnTime(Ask(s, c), es);
    AllKept(Ask(s, c), es);
    var s' := Run(Ask(s, c), es);
    assert x in s'.all;
    hide Run, Ask, InOrder;
    RanWhenDue(s', x);
  }

  lemma RanWhenDue(s: Timers, x: Timer)
    requires OnTime(s) && x in s.all && x.deadline > x.asked
    ensures forall at :: (at, x) in s.ran ==> at == x.deadline
    ensures (x.deadline, x) in s.ran <==> s.now >= x.deadline
    ensures forall i, j :: 0 <= i < j < |s.ran| ==> s.ran[i] != s.ran[j]
  {
    hide InOrder;
    assert (x.deadline, x) in s.ran <==> x.deadline <= s.now;
  }

  lemma {:induction false} AskAllKeeps(s: Timers, cs: seq<Call>)
    ensures s.all <= AskAll(s, cs).all
    decreases |cs|
  {
    if cs != [] { AskAllKeeps(Ask(s, cs[0]), cs[1..]); }
  }

  lemma {:induction false} AllKept(s: Timers, es: seq<Event>)
    ensures s.all <= Run(s, es).all
    decreases |es|
  {
    hide Set, Stamped, Names, Added, DueBy;
    if es != [] {
      match es[0]
      case Timeout(c) =>
        AllKept(Ask(s, c), es[1..]);
      case Clock(calls) =>
        var now, k := s.now + 1, DueBy(s.ts, s.now + 1);
        AskAllKeeps(s.(now := now, ran := s.ran + Stamped(now, s.ts[..k])), Added(Names(s.ts[..k]), calls));
        AllKept(Tick(s, calls), es[1..]);
    }
  }

  // ----- an entry set for a time already past

  /** The calls as they count while an entry of `-d` ticks is first. */
  function Delayed(cs: seq<Call>, d: nat): (r: seq<Call>)
    ensures |r| == |cs| && forall i :: 0 <= i < |cs| ==> r[i] == cs[i].(time := cs[i].time + d)
  {
    seq(|cs|, i requires 0 <= i < |cs| => cs[i].(time := cs[i].time + d))
  }

  function LateBy(x: Timer, d: nat): Timer { x.(deadline := x.deadline + d) }

  function AllLate(ts: seq<Timer>, d: nat): (r: seq<Timer>)
    ensures |r| == |ts| && forall i :: 0 <= i < |ts| ==> r[i] == LateBy(ts[i], d)
  {
    seq(|ts|, i requires 0 <= i < |ts| => LateBy(ts[i], d))
  }

  /** The timers with all that have not run yet `d` ticks late. */
  function Late(s: Timers, d: nat): Timers {
    s.(ts := AllLate(s.ts, d),
       all := seq(|s.all|, i requires 0 <= i < |s.all| => if Due(s.all[i]) > s.now then LateBy(s.all[i], d)
                  else s.all[i]))
  }

  lemma LateOnTime(s: Timers, d: nat)
    requires OnTime(s)
    ensures OnTime(Late(s, d)) && forall x :: x in s.ts ==> LateBy(x, d) in Late(s, d).all
  {
    LatePending(s, d);
    LateRan(s, d);
    hide Due, LateBy;
    assert InOrder(Late(s, d).ts) by { LateInOrder(s.ts, d); }
    hide InOrder;
    var r := Late(s, d);
    forall i | 0 <= i < |r.all|
      ensures r.all[i].id == i && r.all[i].asked <= r.now && r.all[i].deadline >= r.all[i].asked
    {
      LateParts(s.all[i], d);
    }
  }

  lemma LateParts(x: Timer, d: nat)
    ensures LateBy(x, d).id == x.id && LateBy(x, d).asked == x.asked && LateBy(x, d).deadline >= x.deadline
  {
  }

  lemma LateInOrder(ts: seq<Timer>, d: nat)
    requires InOrder(ts)
    ensures InOrder(AllLate(ts, d))
  {
    var r := AllLate(ts, d);
    forall i, j | 0 <= i < j < |r| ensures Before(r[i], r[j]) { assert Before(ts[i], ts[j]); }
  }

  lemma LatePending(s: Timers, d: nat)
    requires OnTime(s)
    ensures var r := Late(s, d);
            && (forall x :: x in s.ts ==> LateBy(x, d) in r.all)
            && forall x :: x in r.ts <==> x in r.all && Due(x) > r.now
  {
    hide InOrder;
    var r := Late(s, d);
    assert forall i :: 0 <= i < |s.ts| ==> s.ts[i] in s.ts;
    forall x | x in s.ts ensures LateBy(x, d) in r.all {
      var i :| 0 <= i < |s.all| && s.all[i] == x;
      assert r.all[i] == LateBy(x, d);
    }
    forall x ensures x in r.ts <==> x in r.all && Due(x) > r.now {
      if x in r.ts {
        var i :| 0 <= i < |r.ts| && r.ts[i] == x;
        assert x == LateBy(s.ts[i], d);
      }
      if x in r.all && Due(x) > r.now {
        var i :| 0 <= i < |r.all| && r.all[i] == x;
        assert s.all[i] in s.ts;
        var j :| 0 <= j < |s.ts| && s.ts[j] == s.all[i];
        assert r.ts[j] == x;
      }
    }
  }

  lemma LateRan(s: Timers, d: nat)
    requires OnTime(s)
    ensures var r := Late(s, d); forall a :: a in r.ran <==> a.1 in r.all && a.0 == Due(a.1) <= r.now
  {
    hide InOrder;
    var r := Late(s, d);
    forall a ensures a in r.ran <==> a.1 in r.all && a.0 == Due(a.1) <= r.now {
      if a.1 in s.all && Due(a.1) <= s.now {
        var i :| 0 <= i < |s.all| && s.all[i] == a.1;
        assert r.all[i] == a.1;
      }
      if a.1 in r.all && Due(a.1) <= r.now {
        var i :| 0 <= i < |r.all| && r.all[i] == a.1;
        assert s.all[i] == a.1;
      }
    }
  }

  /** A timeout for `-d` ticks goes in first, and the rest of the table stands for
      its timers `d` ticks late. */
  lemma NegativeStands(list: seq<Call>, now: int, ts: seq<Timer>, c: Call) returns (rest: seq<Call>)
    requires Stands(list, now, ts) && NonePast(ts, now) && c.time < 0
    ensures Inserted(list, c) == [c] + rest && Stands(rest, now, AllLate(ts, -c.time))
  {
    var r := AllLate(ts, -c.time);
    forall i, j | 0 <= i < j < |r| ensures Before(r[i], r[j]) { assert Before(ts[i], ts[j]); }
    if list == [] {
      rest := [];
    } else {
      rest := list[0 := list[0].(time := list[0].time - c.time)];
      assert Place(list, c.time, 0) == (0, c.time);
    }
  }

  lemma {:induction false} PlaceNext(c: Call, rest: seq<Call>, t: int, i: nat)
    requires i <= |rest|
    ensures Place([c] + rest, t, i + 1) == (Place(rest, t, i).0 + 1, Place(rest, t, i).1)
    decreases |rest| - i
  {
    if i < |rest| && rest[i].time <= t { PlaceNext(c, rest, t - rest[i].time, i + 1); }
  }

  /** With such an entry first, what is set goes in as if for so many ticks later. */
  lemma InsertedLate(c: Call, rest: seq<Call>, x: Call)
    requires c.time < 0 <= x.time
    ensures Inserted([c] + rest, x) == [c] + Inserted(rest, x.(time := x.time - c.time))
  {
    var l, y := [c] + rest, x.(time := x.time - c.time);
    PlaceNext(c, rest, y.time, 0);
    assert Place(l, x.time, 0) == Place(l, y.time, 1);
    hide Place, Inserted;
    forall i | 0 <= i <= |l| ensures Inserted(l, x)[i] == ([c] + Inserted(rest, y))[i] {
      InsertedAt(l, x, i);
      if i > 0 { InsertedAt(rest, y, i - 1); }
    }
  }

  lemma {:induction false} InsertAllLate(c: Call, rest: seq<Call>, cs: seq<Call>)
    requires c.time < 0 && forall i :: 0 <= i < |cs| ==> cs[i].time >= 0
    ensures InsertAll([c] + rest, cs) == [c] + InsertAll(rest, Delayed(cs, -c.time))
    decreases |cs|
  {
    hide Inserted;
    if cs != [] {
      InsertedLate(c, rest, cs[0]);
      var r := Inserted(rest, cs[0].(time := cs[0].time - c.time));
      InsertAllLate(c, r, cs[1..]);
      assert Delayed(cs, -c.time)[1..] == Delayed(cs[1..], -c.time);
    }
  }

  lemma RunningNext(c: Call, rest: seq<Call>)
    requires c.time < 0
    ensures Running([c] + rest, 0) == Running(rest, 0) + 1 && Ticked([c] + rest) == [c] + Ticked(rest)
  {
    var k := Running(rest, 0);
    RunningIs([c] + rest, 0, k + 1);
    if k < |rest| {
      var x := rest[k].(time := rest[k].time - 1);
      assert ([c] + rest)[k+1 := x] == [c] + rest[k := x];
    }
  }

  /** The timers from a timeout for `-d` ticks, through other timeouts, over the next
      tick: all that were there, and all that are set until then or by the routines
      that run then, are `d` ticks late. */
  function NegativeTick(s: Timers, c: Call, cs: seq<Call>, calls: Calls): Timers
    requires c.time < 0
  {
    var d := -c.time;
    var s1 := AskAll(Late(s, d), Delayed(cs, d));
    AskAll(Ticking(s1), Delayed(Added([c] + Names(s1.ts[..DueBy(s1.ts, s.now + 1)]), calls), d))
  }

  /** And that is what the table does; the routine itself runs on that tick, first. */
  lemma {:induction false} NegativeDelaysAll(s: Timers, list: seq<Call>, c: Call, cs: seq<Call>, calls: Calls)
    requires OnTime(s) && Stands(list, s.now, s.ts) && c.time < 0 && Later(calls)
    requires forall i :: 0 <= i < |cs| ==> cs[i].time >= 0
    ensures var (rest, ran) := Clocked(InsertAll(Inserted(list, c), cs), calls);
            && Stands(rest, s.now + 1, NegativeTick(s, c, cs, calls).ts) && OnTime(NegativeTick(s, c, cs, calls))
            && ran != [] && ran[0] == c
    ensures NegativeTick(s, c, cs, calls).now == s.now + 1
    ensures forall x :: x in s.ts ==> LateBy(x, -c.time) in NegativeTick(s, c, cs, calls).all
  {
    hide OnTime, Stands, Later, Inserted, InsertAll, AskAll, Added, Late, Ticked, Running, DueBy, Ticking;
    var d, now := -c.time, s.now + 1;
    PendingFacts(s);
    var rest := NegativeStands(list, s.now, s.ts, c);
    LateOnTime(s, d);
    var s0 := Late(s, d);
    LateNow(s, d);
    PendingFacts(s0);
    InsertAllLate(c, rest, cs);
    AllStand(rest, s0, Delayed(cs, d));
    AskAllOnTime(s0, Delayed(cs, d));
    AskAllKeeps(s0, Delayed(cs, d));
    var s1, l := AskAll(s0, Delayed(cs, d)), InsertAll(rest, Delayed(cs, d));
    LateTick(s1, l, c, calls, d);
  }

  lemma LateNow(s: Timers, d: nat)
    ensures Late(s, d).now == s.now && Late(s, d).ts == AllLate(s.ts, d)
  {
  }

  /** The table over a tick with an entry already past first. */
  lemma {:induction false} LateClocked(l: seq<Call>, c: Call, calls: Calls, d: nat)
    requires c.time + d == 0 && d > 0 && Later(calls)
    ensures var t := Ticked(l); var k := Running(t, 0);
            var (rest, ran) := Clocked([c] + l, calls);
            ran == [c] + t[..k] && rest == InsertAll(t, Delayed(Added([c] + t[..k], calls), d))[k..]
  {
    hide Later, InsertAll, Added, Ticked, Running;
    RunningNext(c, l);
    var t, k := Ticked(l), Running(Ticked(l), 0);
    RunningNext(c, t);
    assert ([c] + t)[..k+1] == [c] + t[..k];
    var cs := Added([c] + t[..k], calls);
    AddedLater([c] + t[..k], calls);
    InsertAllLate(c, t, cs);
    assert ([c] + InsertAll(t, Delayed(cs, d)))[k+1..] == InsertAll(t, Delayed(cs, d))[k..];
  }

  /** One tick, with an entry already past first. */
  lemma {:induction false} LateTick(s1: Timers, l: seq<Call>, c: Call, calls: Calls, d: nat)
    requires OnTime(s1) && Stands(l, s1.now, s1.ts) && c.time + d == 0 && d > 0 && Later(calls)
    ensures var (rest, ran) := Clocked([c] + l, calls);
            var s2 := AskAll(Ticking(s1), Delayed(Added([c] + Names(s1.ts[..DueBy(s1.ts, s1.now + 1)]), calls), d));
            && Stands(rest, s1.now + 1, s2.ts) && OnTime(s2) && s2.now == s1.now + 1 && s1.all <= s2.all
            && ran != [] && ran[0] == c
  {
    hide OnTime, Later, InsertAll, AskAll, Added, Ticked, Running, InOrder, NotAfter, Clocked;
    var now, k := s1.now + 1, DueBy(s1.ts, s1.now + 1);
    PendingFacts(s1);
    TickStands(l, s1.now, s1.ts);
    LateClocked(l, c, calls, d);
    var t := Ticked(l);
    SameDue(c, t, s1, k, calls);
    hide Stands, DueBy;
    var cs := Added([c] + t[..k], calls);
    AddedLater([c] + t[..k], calls);
    LateRest(s1, t, Delayed(cs, d), k);
  }

  lemma SameDue(c: Call, t: seq<Call>, s1: Timers, k: nat, calls: Calls)
    requires k <= |s1.ts| && Stands(t, s1.now + 1, s1.ts)
    ensures Added([c] + t[..k], calls) == Added([c] + Names(s1.ts[..k]), calls)
  {
    hide InOrder, Added;
    SameAdded([c] + t[..k], [c] + Names(s1.ts[..k]), calls);
  }

  lemma {:induction false} LateRest(s1: Timers, t: seq<Call>, late: seq<Call>, k: nat)
    requires OnTime(s1) && k == DueBy(s1.ts, s1.now + 1) && Stands(t, s1.now + 1, s1.ts)
    requires forall i :: 0 <= i < |late| ==> late[i].time >= 1
    ensures var s2 := AskAll(Ticking(s1), late);
            k <= |InsertAll(t, late)| && Stands(InsertAll(t, late)[k..], s1.now + 1, s2.ts) && OnTime(s2)
            && s2.now == s1.now + 1 && s1.all <= s2.all
  {
    assert |t| == |s1.ts|;
    hide OnTime, InsertAll, AskAll, InOrder, NotAfter, Stands;
    var now := s1.now + 1;
    var at := s1.(now := now, ran := s1.ran + Stamped(now, s1.ts[..k]));
    PendingFacts(s1);
    IdsSame(s1, at);
    AllStand(t, at, late);
    AskedBeyond(at, late, k);
    RestDue(at, late, k);
    RestStands(InsertAll(t, late), now, AskAll(at, late).ts, k);
    AskAfterTaking(at, late, k);
    assert Ticking(s1) == at.(ts := at.ts[k..]);
    RanOnTime(s1);
    AskAllOnTime(Ticking(s1), late);
    AskAllKeeps(Ticking(s1), late);
  }

  lemma RestDue(s: Timers, cs: seq<Call>, k: nat)
    requires k <= |s.ts| <= |AskAll(s, cs).ts| && k == DueBy(AskAll(s, cs).ts, s.now)
    ensures forall i :: 0 <= i < k ==> AskAll(s, cs).ts[i].deadline <= s.now
  {
  }

  /** The timer an entry has once the timeout for `c.time` has been made. */
  function Moved(x: Timer, c: Call): Timer { if c.time >= 0 then x else LateBy(x, -c.time) }

  /** The timers after a timeout, others, and a tick. */
  function OverTick(s: Timers, c: Call, cs: seq<Call>, calls: Calls): Timers {
    if c.time >= 0 then Tick(AskAll(Ask(s, c), cs), calls) else NegativeTick(s, c, cs, calls)
  }

  /** For every entry of the table, any timeout, whatever is set until and on the next
      tick, and any run after it: the entry's routine runs once, at its moved time;
      and that is its own time if and only if the timeout was not for a time already
      past, or was by one tick and the entry was for the next tick at once. */
  lemma {:induction false} OnTimeIffNotPast(s: Timers, list: seq<Call>, c: Call, cs: seq<Call>, calls: Calls, es: seq<Event>, x: Timer)
    requires OnTime(s) && Stands(list, s.now, s.ts) && Later(calls) && x in s.ts
    requires (forall i :: 0 <= i < |cs| ==> cs[i].time >= 0) && (forall i :: 0 <= i < |es| ==> Allowed(es[i]))
    ensures var s' := Run(OverTick(s, c, cs, calls), es);
            && Stands(RunList(Clocked(InsertAll(Inserted(list, c), cs), calls).0, es), s'.now, s'.ts) && OnTime(s')
            && ((Due(Moved(x, c)), Moved(x, c)) in s'.ran <==> s'.now >= Due(Moved(x, c)))
    ensures Due(Moved(x, c)) == Due(x) <==> c.time >= 0 || (c.time == -1 && x.deadline == s.now)
  {
    PendingHere(s, x);
    hide OnTime, Stands, Later, Clocked, Inserted, InsertAll, AskAll, Ask, Run, RunList, OverTick, Moved, Due, Allowed;
    var s1, l1 := OverTick(s, c, cs, calls), Clocked(InsertAll(Inserted(list, c), cs), calls).0;
    TickOver(s, list, c, cs, calls, x);
    RunStands(l1, s1, es);
    RunOnTime(s1, es);
    AllKept(s1, es);
    PrefixHas(s1.all, Run(s1, es).all, Moved(x, c));
    RunsWhenDue(Run(s1, es), Moved(x, c));
    MovedOnTime(x, c, s.now);
  }

  lemma PrefixHas(a: seq<Timer>, b: seq<Timer>, x: Timer)
    requires a <= b && x in a
    ensures x in b
  {
    var i :| 0 <= i < |a| && a[i] == x;
    assert b[i] == x;
  }

  lemma MovedOnTime(x: Timer, c: Call, now: int)
    requires Due(x) > now && x.deadline >= now >= x.asked
    ensures Due(Moved(x, c)) == Due(x) <==> c.time >= 0 || (c.time == -1 && x.deadline == now)
  {
  }

  lemma {:induction false} TickOver(s: Timers, list: seq<Call>, c: Call, cs: seq<Call>, calls: Calls, x: Timer)
    requires OnTime(s) && Stands(list, s.now, s.ts) && Later(calls) && x in s.ts
    requires forall i :: 0 <= i < |cs| ==> cs[i].time >= 0
    ensures var s1 := OverTick(s, c, cs, calls);
            && Stands(Clocked(InsertAll(Inserted(list, c), cs), calls).0, s1.now, s1.ts) && OnTime(s1)
            && Moved(x, c) in s1.all
  {
    hide OnTime, Stands, Later, Clocked, Inserted, InsertAll, AskAll, Ask, NegativeTick, Tick, Due;
    if c.time < 0 {
      NegativeDelaysAll(s, list, c, cs, calls);
    } else {
      UsualTick(s, list, c, cs, calls);
      PendingHere(s, x);
      PrefixHas(s.all, Tick(AskAll(Ask(s, c), cs), calls).all, x);
    }
  }

  lemma {:induction false} RunsWhenDue(s: Timers, x: Timer)
    requires OnTime(s) && x in s.all
    ensures (Due(x), x) in s.ran <==> s.now >= Due(x)
  {
    assert (Due(x), x).1 == x;
  }

  lemma {:induction false} UsualTick(s: Timers, list: seq<Call>, c: Call, cs: seq<Call>, calls: Calls)
    requires OnTime(s) && Stands(list, s.now, s.ts) && Later(calls) && c.time >= 0
    requires forall i :: 0 <= i < |cs| ==> cs[i].time >= 0
    ensures var s1 := Tick(AskAll(Ask(s, c), cs), calls);
            && Stands(Clocked(InsertAll(Inserted(list, c), cs), calls).0, s1.now, s1.ts) && OnTime(s1)
            && s.all <= s1.all
  {
    hide OnTime, Stands, Later, Clocked, Inserted, InsertAll, AskAll, Ask, Tick;
    PendingFacts(s);
    AskStands(list, s, c);
    AskOnTime(s, c);
    IdsGrow(s, c);
    AllStand(Inserted(list, c), Ask(s, c), cs);
    AskAllOnTime(Ask(s, c), cs);
    AskAllKeeps(Ask(s, c), cs);
    OneTick(AskAll(Ask(s, c), cs), InsertAll(Inserted(list, c), cs), calls);
    AskKeeps(s, c);
  }

  lemma PendingHere(s: Timers, x: Timer)
    requires OnTime(s) && x in s.ts
    ensures x in s.all && Due(x) > s.now && x.deadline >= s.now >= x.asked
  {
  }

  lemma {:induction false} AskKeeps(s: Timers, c: Call)
    ensures s.all <= Ask(s, c).all && Ask(s, c).now == s.now
  {
  }

  lemma {:induction false} OneTick(s: Timers, list: seq<Call>, calls: Calls)
    requires OnTime(s) && Stands(list, s.now, s.ts) && Later(calls)
    ensures var s' := Tick(s, calls);
            OnTime(s') && Stands(Clocked(list, calls).0, s'.now, s'.ts) && s'.now == s.now + 1 && s.all <= s'.all
  {
    hide Stands, Later, OnTime, Clocked, AskAll, Added;
    PendingFacts(s);
    ClockStands(list, s, calls);
    TickOnTime(s, calls);
    TickNow(s, calls);
    var k := DueBy(s.ts, s.now + 1);
    AskAllKeeps(s.(now := s.now + 1, ran := s.ran + Stamped(s.now + 1, s.ts[..k])), Added(Names(s.ts[..k]), calls));
  }

  // ----- the table itself

  ghost predicate InsertedIs(list: seq<Call>, c: Call, k: nat, t: int, i: nat) {
    i <= |list| && k <= |list| &&
    Inserted(list, c)[i] ==
    if i < k then list[i] else if i == k then c.(time := t)
    else if i == k + 1 then list[k].(time := list[k].time - t) else list[i-1]
  }

  class Table {
    const callout: array<Call>
    ghost var list: seq<Call>

    /** The entries in use, then one whose routine is 0. */
    ghost predicate Valid()
      reads this, callout
    {
      && |list| < callout.Length
      && (forall i :: 0 <= i < |list| ==> callout[i] == list[i] && list[i].func != 0)
      && callout[|list|].func == 0
    }

    constructor (n: nat)
      requires n > 0
      ensures Valid() && list == [] && fresh(callout) && callout.Length == n
    {
      callout := new Call[n](_ => Call(0, 0, 0));
      list := [];
    }

    /** `timeout`; there must be a slot to spare. */
    method Timeout(func: int, arg: int, time: int)
      requires Valid() && func != 0 && |list| + 1 < callout.Length
      modifies this`list, callout
      ensures Valid() && list == Inserted(old(list), Call(time, func, arg))
    {
      hide Place, Inserted;
      var t, p1 := FindPlace(time);
      forall i | 0 <= i <= |list| ensures InsertedIs(list, Call(time, func, arg), p1, t, i) {
        InsertedAt(list, Call(time, func, arg), i);
      }
      callout[p1] := callout[p1].(time := callout[p1].time - t);
      MakeRoom(p1);
      callout[p1] := Call(t, func, arg);
      ghost var was := list;
      list := Inserted(list, Call(time, func, arg));
      forall i | 0 <= i < |list| ensures callout[i] == list[i] && list[i].func != 0 {
        assert InsertedIs(was, Call(time, func, arg), p1, t, i);
      }
    }

    /** The place for `time` ticks on, and how many of them are left there. */
    method FindPlace(time: int) returns (t: int, p1: nat)
      requires Valid()
      ensures (p1, t) == Place(list, time, 0)
    {
      t, p1 := time, 0;
      while callout[p1].func != 0 && callout[p1].time <= t
        invariant p1 <= |list| && Place(list, time, 0) == Place(list, t, p1)
        decreases |list| - p1
      {
        t := t - callout[p1].time;
        p1 := p1 + 1;
      }
    }

    /** Entries from `p1` on, the end included, move up one. */
    method MakeRoom(p1: nat)
      requires p1 <= |list| && |list| + 1 < callout.Length
      requires (forall i :: p1 <= i < |list| ==> callout[i].func != 0) && callout[|list|].func == 0
      modifies callout
      ensures forall i :: 0 <= i < p1 ==> callout[i] == old(callout[i])
      ensures forall i :: p1 < i <= |list| + 1 ==> callout[i] == old(callout[i-1])
    {
      var p2 := p1;
      while callout[p2].func != 0
        invariant p1 <= p2 <= |list|
        invariant forall i :: 0 <= i < callout.Length ==> callout[i] == old(callout[i])
        decreases |list| - p2
      {
        p2 := p2 + 1;
      }
      assert p2 == |list|;
      var q: int := p2;
      while q >= p1
        invariant p1 - 1 <= q <= |list|
        invariant forall i :: 0 <= i <= q ==> callout[i] == old(callout[i])
        invariant forall i :: q + 1 < i <= |list| + 1 ==> callout[i] == old(callout[i-1])
      {
        callout[q+1] := callout[q];
        q := q - 1;
      }
    }

    /** The callout part of the clock interrupt.  Each routine that runs asks for
        what `calls` says; there must be slots for all of it. */
    method Clock(calls: Calls) returns (ran: seq<Call>)
      requires Valid() && Later(calls)
      requires var l := Ticked(list); |list| + |Added(l[..Running(l, 0)], calls)| < callout.Length
      modifies this`list, callout
      ensures Valid() && (list, ran) == Clocked(old(list), calls)
    {
      ran := [];
      if callout[0].func == 0 {
        return;
      }
      Decrement();
      if callout[0].time <= 0 {
        var p1;
        p1, ran := RunDue(calls);
        assert p1 > 0;
        Compact(p1);
      }
    }

    method Decrement()
      requires Valid() && list != []
      modifies this`list, callout
      ensures Valid() && list == Ticked(old(list))
    {
      var p2 := 0;
      while callout[p2].time <= 0 && callout[p2].func != 0
        invariant p2 <= |list| && Running(list, 0) == Running(list, p2)
        invariant forall i :: 0 <= i < callout.Length ==> callout[i] == old(callout[i])
        decreases |list| - p2
      {
        p2 := p2 + 1;
      }
      callout[p2] := callout[p2].(time := callout[p2].time - 1);
      list := Ticked(list);
    }

    /** The routines that are due, in order, each asking for more as it runs. */
    method RunDue(calls: Calls) returns (p1: nat, ran: seq<Call>)
      requires Valid() && Later(calls)
      requires |list| + |Added(list[..Running(list, 0)], calls)| < callout.Length
      modifies this`list, callout
      ensures Valid() && p1 == Running(old(list), 0) && ran == old(list)[..p1]
      ensures list == InsertAll(old(list), Added(ran, calls)) && p1 <= |list|
    {
      hide InsertAll, Added, Running, Later;
      ghost var was, k := list, Running(list, 0);
      p1, ran := 0, [];
      NothingAdded(was, calls);
      DueStill(was, calls, 0);
      while callout[p1].func != 0 && callout[p1].time <= 0
        invariant Valid() && p1 <= k && ran == was[..p1] && k <= |list|
        invariant list == InsertAll(was, Added(was[..p1], calls))
        invariant (p1 < k ==> list[p1] == was[p1] && was[p1].time <= 0) && (p1 == k < |list| ==> list[p1].time > 0)
        decreases k - p1
      {
        var c := RunOne(calls, p1, was);
        ran := ran + [c];
        p1 := p1 + 1;
        DueStill(was, calls, p1);
      }
    }

    lemma NothingAdded(was: seq<Call>, calls: Calls)
      ensures was[..0] == [] && InsertAll(was, Added(was[..0], calls)) == was
    {
    }

    /** One routine runs. */
    method RunOne(calls: Calls, p1: nat, ghost was: seq<Call>) returns (c: Call)
      requires Valid() && Later(calls) && p1 < Running(was, 0) && p1 < |list| && list[p1] == was[p1]
      requires list == InsertAll(was, Added(was[..p1], calls))
      requires |was| + |Added(was[..Running(was, 0)], calls)| < callout.Length
      modifies this`list, callout
      ensures Valid() && c == was[p1] && list == InsertAll(was, Added(was[..p1+1], calls))
    {
      hide InsertAll, Running;
      c := callout[p1];
      ghost var k := Running(was, 0);
      AddedGrows(was[..k], calls, p1 + 1);
      assert was[..k][..p1+1] == was[..p1+1];
      assert was[..p1+1][..p1] == was[..p1];
      InsertAllConcat(was, Added(was[..p1], calls), calls(c.func, c.arg));
      AskFor(calls(c.func, c.arg));
    }

    lemma DueStill(was: seq<Call>, calls: Calls, i: nat)
      requires Later(calls) && i <= Running(was, 0)
      ensures var l, k := InsertAll(was, Added(was[..i], calls)), Running(was, 0);
              && Running(l, 0) == k <= |l| && l[..k] == was[..k]
              && (i < k ==> l[i] == was[i]) && (k < |l| ==> l[k].time > 0)
    {
      AddedLater(was[..i], calls);
      AllBeyond(was, Added(was[..i], calls), Running(was, 0));
      var l, k := InsertAll(was, Added(was[..i], calls)), Running(was, 0);
      if i < k { assert l[i] == l[..k][i] == was[..k][i]; }
    }

    lemma {:induction false} AddedGrows(due: seq<Call>, calls: Calls, i: nat)
      requires i <= |due|
      ensures |Added(due[..i], calls)| <= |Added(due, calls)|
      decreases |due| - i
    {
      if i < |due| {
        AddedGrows(due, calls, i+1);
        assert due[..i+1][..i] == due[..i];
      } else {
        assert due[..i] == due;
      }
    }

    method AskFor(cs: seq<Call>)
      requires Valid() && |list| + |cs| < callout.Length && forall i :: 0 <= i < |cs| ==> cs[i].func != 0
      modifies this`list, callout
      ensures Valid() && list == InsertAll(old(list), cs)
    {
      var i := 0;
      while i < |cs|
        invariant i <= |cs| && Valid() && |list| + |cs| - i < callout.Length
        invariant InsertAll(old(list), cs) == InsertAll(list, cs[i..])
      {
        assert cs[i..][1..] == cs[i+1..];
        Timeout(cs[i].func, cs[i].arg, cs[i].time);
        i := i + 1;
      }
    }

    /** Entries from `p1` on move down to the start. */
    method Compact(p1: nat)
      requires Valid() && 0 < p1 <= |list|
      modifies this`list, callout
      ensures Valid() && list == old(list)[p1..]
    {
      var p, p2 := p1, 0;
      while true
        invariant p == p1 + p2 && p1 <= p <= |list|
        invariant forall i :: 0 <= i < p2 ==> callout[i] == list[p1 + i]
        invariant forall i :: p <= i < callout.Length ==> callout[i] == old(callout[i])
        decreases |list| - p
        modifies callout
      {
        callout[p2] := callout[p2].(func := callout[p].func);
        if callout[p2].func == 0 { break; }
        callout[p2] := callout[p2].(time := callout[p].time);
        callout[p2] := callout[p2].(arg := callout[p].arg);
        p, p2 := p + 1, p2 + 1;
      }
      list := list[p1..];
    }
  }
}
