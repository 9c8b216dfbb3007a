/** What the patterns of the editor and of grep mean. */
module Patterns {

  /** A character of a line; 0 ends it and is not in it. */
  type Char = c: int | 0 < c < 256 witness 1

  datatype Atom = Chr(c: Char) | Dot | Class(members: seq<Char>, not: bool)

  /** `Bra` and `Ket` mark where a numbered part of the match begins and ends. */
  datatype Item = One(a: Atom) | Star(a: Atom) | Dol | Bra(k: nat) | Ket(k: nat)

  predicate Fits(a: Atom, c: Char) {
    match a
    case Chr(d) => c == d
    case Dot => true
    case Class(members, not) => (c in members) != not
  }

  /** The item takes the line from `i` to `j`. */
  ghost predicate Takes(it: Item, text: seq<Char>, i: nat, j: nat) {
    match it
    case One(a) => i < |text| && j == i + 1 && Fits(a, text[i])
    case Star(a) => i <= j <= |text| && forall x :: i <= x < j ==> Fits(a, text[x])
    case Dol => i == j == |text|
    case Bra(_) => i == j <= |text|
    case Ket(_) => i == j <= |text|
  }

  /** A way to match: item `n` takes the line from `ks[n]` to `ks[n+1]`. */
  ghost predicate Spans(p: seq<Item>, text: seq<Char>, ks: seq<nat>) {
    && |ks| == |p| + 1 && ks[|p|] <= |text|
    && forall n :: 0 <= n < |p| ==> Takes(p[n], text, ks[n], ks[n+1])
  }

  /** The pattern matches from `i`. */
  ghost predicate MatchesAt(p: seq<Item>, text: seq<Char>, i: nat) {
    exists ks :: Spans(p, text, ks) && ks[0] == i
  }

  /** At the first place where they differ, `a` has got further. */
  ghost predicate Greedier(a: seq<nat>, b: seq<nat>) {
    a == b || exists n :: 0 <= n < |a| && n < |b| && a[..n] == b[..n] && a[n] > b[n]
  }

  datatype Found = No | At(ks: seq<nat>)

  function Cons(i: nat, f: Found): Found {
    match f
    case No => No
    case At(ks) => At([i] + ks)
  }

  /** Where the run of characters that fit ends. */
  function RunEnd(a: Atom, text: seq<Char>, i: nat): (j: nat)
    requires i <= |text|
    ensures i <= j <= |text| && (forall x :: i <= x < j ==> Fits(a, text[x])) && (j < |text| ==> !Fits(a, text[j]))
    decreases |text| - i
  {
    if i < |text| && Fits(a, text[i]) then RunEnd(a, text, i+1) else i
  }

  /** The match the search comes to: each closure as long as the rest allows, the
      earlier ones first.  No closure may end at `stop`, or anywhere short of it. */
  function Best(p: seq<Item>, text: seq<Char>, i: nat, stop: int): (f: Found)
    requires i <= |text|
    ensures f.At? ==> |f.ks| == |p| + 1
    decreases |p|, 1, 0
  {
    if p == [] then At([i])
    else
      match p[0]
      case One(a) => if i < |text| && Fits(a, text[i]) then Cons(i, Best(p[1..], text, i+1, stop)) else No
      case Star(a) => Cons(i, Longest(p[1..], text, i, RunEnd(a, text, i), stop))
      case Dol => if i == |text| then Cons(i, Best(p[1..], text, i, stop)) else No
      case Bra(_) => Cons(i, Best(p[1..], text, i, stop))
      case Ket(_) => Cons(i, Best(p[1..], text, i, stop))
  }

  /** The best match of the rest from the furthest place down to `i` it matches at. */
  function Longest(p: seq<Item>, text: seq<Char>, i: nat, j: nat, stop: int): (f: Found)
    requires i <= j <= |text|
    ensures f.At? ==> |f.ks| == |p| + 1
    decreases |p|, 2, j - i
  {
    if j == stop then No
    else
      var f := Best(p, text, j, stop);
      if f.At? || j == i then f else Longest(p, text, i, j-1, stop)
  }

  // ----- it is a match, and the greediest there is

  lemma {:induction false} BestSpans(p: seq<Item>, text: seq<Char>, i: nat, stop: int)
    requires i <= |text| && Best(p, text, i, stop).At?
    ensures Spans(p, text, Best(p, text, i, stop).ks) && Best(p, text, i, stop).ks[0] == i
    decreases |p|, 1, 0
  {
    if p != [] {
      match p[0]
      case One(a) => BestSpans(p[1..], text, i+1, stop); ConsSpans(p, text, i, Best(p[1..], text, i+1, stop).ks);
      case Star(a) =>
        LongestSpans(p[1..], text, i, RunEnd(a, text, i), stop);
        ConsSpans(p, text, i, Longest(p[1..], text, i, RunEnd(a, text, i), stop).ks);
      case Dol => BestSpans(p[1..], text, i, stop); ConsSpans(p, text, i, Best(p[1..], text, i, stop).ks);
      case Bra(_) => BestSpans(p[1..], text, i, stop); ConsSpans(p, text, i, Best(p[1..], text, i, stop).ks);
      case Ket(_) => BestSpans(p[1..], text, i, stop); ConsSpans(p, text, i, Best(p[1..], text, i, stop).ks);
    }
  }

  lemma {:induction false} LongestSpans(p: seq<Item>, text: seq<Char>, i: nat, j: nat, stop: int)
    requires i <= j <= |text| && Longest(p, text, i, j, stop).At?
    ensures var ks := Longest(p, text, i, j, stop).ks; Spans(p, text, ks) && i <= ks[0] <= j
    decreases |p|, 2, j - i
  {
    if Best(p, text, j, stop).At? { BestSpans(p, text, j, stop); } else { LongestSpans(p, text, i, j-1, stop); }
  }

  lemma ConsSpans(p: seq<Item>, text: seq<Char>, i: nat, ks: seq<nat>)
    requires p != [] && Spans(p[1..], text, ks) && Takes(p[0], text, i, ks[0])
    ensures Spans(p, text, [i] + ks)
  {
    var r := [i] + ks;
    forall n | 0 <= n < |p| ensures Takes(p[n], text, r[n], r[n+1]) {
      if n > 0 { assert Takes(p[1..][n-1], text, ks[n-1], ks[n]); }
    }
  }

  lemma TailSpans(p: seq<Item>, text: seq<Char>, ks: seq<nat>)
    requires p != [] && Spans(p, text, ks)
    ensures Spans(p[1..], text, ks[1..]) && Takes(p[0], text, ks[0], ks[1]) && ks[0] <= ks[1] <= |text|
  {
    forall n | 0 <= n < |p| - 1 ensures Takes(p[1..][n], text, ks[1..][n], ks[1..][n+1]) {
      assert Takes(p[n+1], text, ks[n+1], ks[n+2]);
    }
    StartInLine(p[1..], text, ks[1..]);
  }

  lemma {:induction false} StartInLine(p: seq<Item>, text: seq<Char>, ks: seq<nat>)
    requires Spans(p, text, ks)
    ensures ks[0] <= |text|
  {
    if p != [] { assert Takes(p[0], text, ks[0], ks[1]); }
  }

  lemma ConsGreedier(i: nat, a: seq<nat>, b: seq<nat>)
    requires Greedier(a, b)
    ensures Greedier([i] + a, [i] + b)
  {
    if a != b {
      var n :| 0 <= n < |a| && n < |b| && a[..n] == b[..n] && a[n] > b[n];
      var x, y := [i] + a, [i] + b;
      assert x[..n+1] == [i] + a[..n] == [i] + b[..n] == y[..n+1];
      assert x[n+1] > y[n+1];
    }
  }

  /** If there is a match there is a best one, and it is greedier than any other. */
  lemma {:induction false} BestIsGreediest(p: seq<Item>, text: seq<Char>, i: nat, ks: seq<nat>, stop: int)
    requires i <= |text| && Spans(p, text, ks) && ks[0] == i && stop < 0
    ensures Best(p, text, i, stop).At? && Greedier(Best(p, text, i, stop).ks, ks)
    decreases |p|, 1, 0
  {
    if p == [] {
      assert ks == [i];
    } else {
      TailSpans(p, text, ks);
      assert ks == [i] + ks[1..];
      match p[0]
      case One(a) =>
        BestIsGreediest(p[1..], text, i+1, ks[1..], stop);
        ConsGreedier(i, Best(p[1..], text, i+1, stop).ks, ks[1..]);
      case Star(a) =>
        LongestIsGreediest(p[1..], text, i, RunEnd(a, text, i), ks[1..], stop);
        ConsGreedier(i, Longest(p[1..], text, i, RunEnd(a, text, i), stop).ks, ks[1..]);
      case Dol =>
        BestIsGreediest(p[1..], text, i, ks[1..], stop);
        ConsGreedier(i, Best(p[1..], text, i, stop).ks, ks[1..]);
      case Bra(_) =>
        BestIsGreediest(p[1..], text, i, ks[1..], stop);
        ConsGreedier(i, Best(p[1..], text, i, stop).ks, ks[1..]);
      case Ket(_) =>
        BestIsGreediest(p[1..], text, i, ks[1..], stop);
        ConsGreedier(i, Best(p[1..], text, i, stop).ks, ks[1..]);
    }
  }

  lemma {:induction false} LongestIsGreediest(p: seq<Item>, text: seq<Char>, i: nat, j: nat, ks: seq<nat>, stop: int)
    requires i <= j <= |text| && Spans(p, text, ks) && i <= ks[0] <= j && stop < 0
    ensures Longest(p, text, i, j, stop).At? && Greedier(Longest(p, text, i, j, stop).ks, ks)
    decreases |p|, 2, j - i
  {
    if ks[0] == j {
      BestIsGreediest(p, text, j, ks, stop);
    } else if Best(p, text, j, stop).At? {
      BestSpans(p, text, j, stop);
      var b := Best(p, text, j, stop).ks;
      assert b[..0] == ks[..0] && b[0] > ks[0];
    } else {
      LongestIsGreediest(p, text, i, j-1, ks, stop);
    }
  }

  /** The search finds a match from `i` if and only if there is one. */
  lemma BestIff(p: seq<Item>, text: seq<Char>, i: nat, stop: int)
    requires i <= |text| && stop < 0
    ensures Best(p, text, i, stop).At? <==> MatchesAt(p, text, i)
  {
    if Best(p, text, i, stop).At? { BestSpans(p, text, i, stop); }
    if MatchesAt(p, text, i) {
      var ks :| Spans(p, text, ks) && ks[0] == i;
      BestIsGreediest(p, text, i, ks, stop);
    }
  }
}
