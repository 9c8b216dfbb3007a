/** The 8086 jump instructions the relaxation chooses between, by the Intel
    instruction set reference, and the linking of one stretch of code. */
module Machine {
  import opened Common
  import opened Relax

  const SPACE: int := 0x1_0000

  function Wrap(x: int): (r: int)
    ensures 0 <= r < SPACE
  {
    x % SPACE
  }

  // ----- executing one jump

  /** What jumps look at: the eight conditions of the Jcc pairs (JO, JB, JZ, JBE,
      JS, JP, JL, JLE) and the CX register. */
  datatype Cpu = Cpu(ip: int, cond: seq<bool>, cx: int) {
    ghost predicate Valid() { 0 <= ip < SPACE && |cond| == 8 && 0 <= cx < SPACE }
  }

  const ZF: nat := 2

  /** CX after the instruction: the LOOP family counts it down. */
  function Counted(jt: nat, m: Cpu): int {
    if 16 <= jt <= 18 then Wrap(m.cx - 1) else m.cx
  }

  /** Whether a jump of a type is taken. */
  predicate Taken(jt: nat, m: Cpu)
    requires |m.cond| == 8
  {
    if jt < 16 then m.cond[jt / 2] == (jt % 2 == 0)
    else if jt == 16 then Counted(jt, m) != 0 && !m.cond[ZF]
    else if jt == 17 then Counted(jt, m) != 0 && m.cond[ZF]
    else if jt == 18 then Counted(jt, m) != 0
    else if jt == 19 then m.cx == 0
    else true
  }

  function Sx(b: Byte): int { if b < 128 then b else b - 256 }

  /** One instruction at IP; only jumps and calls are described, and of a call
      only where control goes. */
  ghost function Exec(mem: int -> Byte, m: Cpu): (m': Cpu)
    requires m.Valid()
  {
    var op, b1, b2 := mem(m.ip), mem(Wrap(m.ip + 1)), mem(Wrap(m.ip + 2));
    if op == 0xE9 || op == 0xE8 then m.(ip := Wrap(m.ip + 3 + Word(b1, b2)))
    else
      var jt := if 0x70 <= op < 0x80 then op - 0x70 else if 0xE0 <= op < 0xE4 then op - 0xE0 + 16 else 20;
      m.(ip := Wrap(m.ip + 2 + if Taken(jt, m) then Sx(b1) else 0), cx := Counted(jt, m))
  }

  /** A jump record is at most two instructions: the jump, and the near jump its
      long form may fall into. */
  ghost function Perform(mem: int -> Byte, m: Cpu, r: Rec): (m': Cpu)
    requires m.Valid() && r.Jump?
  {
    var m1 := Exec(mem, m);
    if r.far && r.jt < LAST_SHORT && m1.ip == Wrap(m.ip + 2) then Exec(mem, m1) else m1
  }

  // ----- linking

  const ONAMEREL: int := 6

  function Word(lo: Byte, hi: Byte): int { lo + hi * 256 }

  /** Add to the little-endian word in the last two bytes. */
  function Patch(bs: seq<Byte>, x: int): (r: seq<Byte>)
    requires |bs| >= 2
    ensures |r| == |bs| && r[..|bs|-2] == bs[..|bs|-2]
    ensures Word(r[|r|-2], r[|r|-1]) == Wrap(Word(bs[|bs|-2], bs[|bs|-1]) + x)
  {
    var n := |bs|;
    var w := Wrap(Word(bs[n-2], bs[n-1]) + x);
    bs[..n-2] + [w % 256, w / 256]
  }

  /** One item of the object file, as the linker's second pass takes it: bytes
      are placed, name marks add an address to the word before them, jump marks
      the distance from the byte after that word. */
  function Link1(bs: seq<Byte>, it: Item, org: int, addr: int -> int): (r: seq<Byte>) {
    match it
    case B(b) => bs + [b]
    case Mark(kind, num) =>
      if |bs| < 2 then bs
      else if kind == OJUMPREL then Patch(bs, addr(num) - (org + |bs|))
      else if kind == ONAMEREL then Patch(bs, addr(num))
      else bs
  }

  function Link(bs: seq<Byte>, items: seq<Item>, org: int, addr: int -> int): (r: seq<Byte>) {
    if items == [] then bs
    else Link1(Link(bs, items[..|items|-1], org, addr), items[|items|-1], org, addr)
  }

  lemma LinkSingle(bs: seq<Byte>, it: Item, org: int, addr: int -> int)
    ensures Link(bs, [it], org, addr) == Link1(bs, it, org, addr)
  {
    hide Link1;
    assert [it][..0] == [];
    assert Link(bs, [], org, addr) == bs;
  }

  lemma {:induction false} LinkConcat(bs: seq<Byte>, a: seq<Item>, b: seq<Item>, org: int, addr: int -> int)
    ensures Link(bs, a + b, org, addr) == Link(Link(bs, a, org, addr), b, org, addr)
    decreases |b|
  {
    if b == [] {
      assert a + b == a;
    } else {
      LinkConcat(bs, a, b[..|b|-1], org, addr);
      assert (a + b)[..|a+b|-1] == a + b[..|b|-1];
    }
  }

  lemma {:induction false} LinkBytes(bs: seq<Byte>, s: seq<Byte>, org: int, addr: int -> int)
    ensures Link(bs, Bytes(s), org, addr) == bs + s
  {
    if s == [] {
      assert Bytes(s) == [];
    } else {
      var k := |s|-1;
      LinkBytes(bs, s[..k], org, addr);
      assert Bytes(s)[..k] == Bytes(s[..k]);
      assert bs + s == bs + s[..k] + [s[k]];
    }
  }

  // ----- the bytes of a jump

  /** The linked long form: the displacement word reaches `target` from the byte
      after the jump, `next`. */
  function FarBytes(jt: nat, target: int, next: int): (bs: seq<Byte>) {
    var w := Wrap(target - next);
    (if jt < LAST_SHORT then [ShortOp(if jt < 18 then Invert(jt) else jt), 3] else []) +
    [if jt <= LAST_SHORT then 0xE9 else 0xE8, w % 256, w / 256]
  }

  lemma LinkFar(bs: seq<Byte>, jt: nat, want: int, org: int, addr: int -> int)
    ensures var next := org + |bs| + (if jt < LAST_SHORT then 5 else 3);
            Link(bs, FarItems(jt, want), org, addr) == bs + FarBytes(jt, addr(want), next)
  {
    var items := FarItems(jt, want);
    var n := |items|;
    var plain := seq(n-1, i requires 0 <= i < n-1 => items[i].b);
    assert Bytes(plain) == items[..n-1];
    LinkBytes(bs, plain, org, addr);
    assert items[n-1] == Mark(OJUMPREL, want);
    var placed := bs + plain;
    assert |placed| == |bs| + (if jt < LAST_SHORT then 5 else 3);
    assert placed[|placed|-2] == 0 && placed[|placed|-1] == 0;
  }

  // ----- where a jump goes

  /** `bs` is loaded at `org`. */
  ghost predicate Loaded(mem: int -> Byte, bs: seq<Byte>, org: int) {
    forall k {:trigger bs[k]} :: 0 <= k < |bs| ==> mem(Wrap(org + k)) == bs[k]
  }

  lemma ShortJumps(mem: int -> Byte, m: Cpu, jt: nat, disp: int)
    requires m.Valid() && jt <= LAST_SHORT && -128 <= disp <= 127
    requires Loaded(mem, [ShortOp(jt), disp % 256], m.ip)
    ensures Exec(mem, m).ip == Wrap(m.ip + 2 + if Taken(jt, m) then disp else 0)
    ensures Exec(mem, m).cx == Counted(jt, m)
  {
    var bs := [ShortOp(jt), disp % 256];
    assert mem(Wrap(m.ip + 0)) == bs[0];
    assert mem(Wrap(m.ip + 1)) == bs[1];
  }

  /** The long form of a conditional jump does what the jump would. */
  lemma FarConditional(mem: int -> Byte, m: Cpu, r: Rec, target: int)
    requires m.Valid() && r.Jump? && r.far && r.jt < 16
    requires Loaded(mem, FarBytes(r.jt, target, m.ip + 5), m.ip)
    ensures Perform(mem, m, r) == m.(ip := Wrap(if Taken(r.jt, m) then target else m.ip + 5))
  {
    var bs := FarBytes(r.jt, target, m.ip + 5);
    assert mem(Wrap(m.ip + 0)) == bs[0];
    assert mem(Wrap(m.ip + 1)) == bs[1];
    assert Taken(Invert(r.jt), m) <==> !Taken(r.jt, m);
    WrapDiffers(m.ip + 2, 3);
    if Taken(r.jt, m) {
      assert Exec(mem, m) == m.(ip := Wrap(m.ip + 2));
      NearPart(mem, Exec(mem, m), bs[2..], target, m.ip);
    } else {
      assert Exec(mem, m) == m.(ip := Wrap(m.ip + 5));
    }
  }

  lemma WrapDiffers(a: int, b: int)
    requires 0 < b < SPACE
    ensures Wrap(a) != Wrap(a + b)
  {
  }

  lemma NearPart(mem: int -> Byte, m: Cpu, bs: seq<Byte>, target: int, ip: int)
    requires m.Valid() && 0 <= ip < SPACE && m.ip == Wrap(ip + 2)
    requires var w := Wrap(target - (ip + 5)); bs == [0xE9, w % 256, w / 256]
    requires forall k :: 0 <= k < 3 ==> mem(Wrap(ip + 2 + k)) == bs[k]
    ensures Exec(mem, m) == m.(ip := Wrap(target))
  {
    hide Wrap, Taken, Counted, Word;
    var w := Wrap(target - (ip + 5));
    assert mem(Wrap(ip + 2 + 0)) == bs[0];
    WrapSum(ip + 2, 1);
    assert mem(Wrap(ip + 2 + 1)) == bs[1];
    WrapSum(ip + 2, 2);
    assert mem(Wrap(ip + 2 + 2)) == bs[2];
    WordOf(w);
    WrapSum(ip + 2, 3 + w);
    WrapSum(target - (ip + 5), ip + 5);
  }

  lemma WrapSum(a: int, b: int)
    ensures Wrap(Wrap(a) + b) == Wrap(a + b)
  {
  }

  lemma WordOf(w: int)
    requires 0 <= w < SPACE
    ensures Word(w % 256, w / 256) == w
  {
  }

  /** A jump or call with no condition. */
  lemma FarPlain(mem: int -> Byte, m: Cpu, r: Rec, target: int)
    requires m.Valid() && r.Jump? && r.far && r.jt >= LAST_SHORT
    requires Loaded(mem, FarBytes(r.jt, target, m.ip + 3), m.ip)
    ensures Perform(mem, m, r) == m.(ip := Wrap(target))
  {
    var bs := FarBytes(r.jt, target, m.ip + 3);
    var w := Wrap(target - (m.ip + 3));
    assert mem(Wrap(m.ip + 0)) == bs[0];
    assert mem(Wrap(m.ip + 1)) == bs[1];
    assert mem(Wrap(m.ip + 2)) == bs[2];
    WordOf(w);
    WrapSum(target - (m.ip + 3), m.ip + 3);
  }

  /** LOOPNZ and LOOPZ are "inverted" into each other, which is not a negation:
      the long form goes where the loop would exactly when CX has not run out. */
  lemma FarLoop(mem: int -> Byte, m: Cpu, r: Rec, target: int)
    requires m.Valid() && r.Jump? && r.far && 16 <= r.jt < 18
    requires Wrap(target) != Wrap(m.ip + 5)
    requires Loaded(mem, FarBytes(r.jt, target, m.ip + 5), m.ip)
    ensures Perform(mem, m, r).ip == Wrap(if Taken(r.jt, m) then target else m.ip + 5)
            <==> Wrap(m.cx - 1) != 0
  {
    var bs := FarBytes(r.jt, target, m.ip + 5);
    assert mem(Wrap(m.ip + 0)) == bs[0];
    assert mem(Wrap(m.ip + 1)) == bs[1];
    var m1 := Exec(mem, m);
    var inverted := Taken(Invert(r.jt), m);
    assert m1 == m.(ip := Wrap(m.ip + if inverted then 5 else 2), cx := Wrap(m.cx - 1));
    WrapDiffers(m.ip + 2, 3);
    if !inverted {
      NearPart(mem, m1, bs[2..], target, m.ip);
    }
  }
}
