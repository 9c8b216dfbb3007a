/** grep's matcher, against what its patterns mean. */
module Grep {
  import opened Patterns

  const CARET: Char := 94
  const STAR: Char := 42
  const DOLLAR: Char := 36
  const POINT: Char := 46

  function AtomOf(c: Char): Atom { if c == POINT then Dot else Chr(c) }

  /** The items of a regular expression, the caret at its front apart. */
  function Items(re: seq<Char>): seq<Item>
    decreases |re|
  {
    if re == [] then []
    else if |re| >= 2 && re[1] == STAR then [Star(AtomOf(re[0]))] + Items(re[2..])
    else if re == [DOLLAR] then [Dol]
    else [One(AtomOf(re[0]))] + Items(re[1..])
  }

  lemma HeadItem(it: Item, p: seq<Item>, text: seq<Char>, i: nat)
    ensures MatchesAt([it] + p, text, i) <==> exists j :: Takes(it, text, i, j) && MatchesAt(p, text, j)
  {
    var q := [it] + p;
    assert q[1..] == p;
    if MatchesAt(q, text, i) {
      var ks :| Spans(q, text, ks) && ks[0] == i;
      TailSpans(q, text, ks);
      assert MatchesAt(p, text, ks[1]) by { assert ks[1..][0] == ks[1]; }
    }
    if j :| Takes(it, text, i, j) && MatchesAt(p, text, j) {
      var ks :| Spans(p, text, ks) && ks[0] == j;
      ConsSpans(q, text, i, ks);
      assert ([i] + ks)[0] == i;
    }
  }

  lemma NoItems(text: seq<Char>, i: nat)
    requires i <= |text|
    ensures MatchesAt([], text, i)
  {
    assert Spans([], text, [i]);
  }

  /** `matchhere`, at place `i` of the text. */
  method MatchHere(re: seq<Char>, text: seq<Char>, i: nat) returns (b: bool)
    requires i <= |text|
    ensures b <==> MatchesAt(Items(re), text, i)
    decreases |re|, 0, 0
  {
    if re == [] {
      NoItems(text, i);
      return true;
    }
    if |re| >= 2 && re[1] == STAR {
      b := MatchStar(re[0], re[2..], text, i);
      return;
    }
    if re[0] == DOLLAR && |re| == 1 {
      assert re == [DOLLAR] && [Dol] + [] == [Dol];
      HeadItem(Dol, [], text, i);
      NoItems(text, i);
      return i == |text|;
    }
    HeadItem(One(AtomOf(re[0])), Items(re[1..]), text, i);
    if i < |text| && (re[0] == POINT || re[0] == text[i]) {
      assert Takes(One(AtomOf(re[0])), text, i, i+1);
      b := MatchHere(re[1..], text, i+1);
      return;
    }
    return false;
  }

  /** `matchstar`: the shortest run first. */
  method MatchStar(c: Char, re: seq<Char>, text: seq<Char>, i: nat) returns (b: bool)
    requires i <= |text|
    ensures b <==> MatchesAt([Star(AtomOf(c))] + Items(re), text, i)
    decreases |re| + 1, 0, 0
  {
    var a := AtomOf(c);
    HeadItem(Star(a), Items(re), text, i);
    var t := i;
    while true
      invariant i <= t <= |text| && (forall x :: i <= x < t ==> Fits(a, text[x]))
      invariant forall j :: i <= j < t ==> !MatchesAt(Items(re), text, j)
      decreases |text| - t
    {
      var here := MatchHere(re, text, t);
      if here {
        assert Takes(Star(a), text, i, t);
        return true;
      }
      if t == |text| || !(text[t] == c || c == POINT) {
        break;
      }
      t := t + 1;
    }
    assert forall j: nat :: Takes(Star(a), text, i, j) ==> j <= t;
    return false;
  }

  /** `match`: anywhere in the text, or at its start after a caret. */
  method Match(re: seq<Char>, text: seq<Char>) returns (b: bool)
    ensures b <==> if re != [] && re[0] == CARET then MatchesAt(Items(re[1..]), text, 0)
                   else exists i :: 0 <= i <= |text| && MatchesAt(Items(re), text, i)
  {
    if re != [] && re[0] == CARET {
      b := MatchHere(re[1..], text, 0);
      return;
    }
    var t := 0;
    while true
      invariant t <= |text| && forall i :: 0 <= i < t ==> !MatchesAt(Items(re), text, i)
      decreases |text| - t
    {
      var here := MatchHere(re, text, t);
      if here { return true; }
      if t == |text| { break; }
      t := t + 1;
    }
    return false;
  }
}
