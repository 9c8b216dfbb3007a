/** The terminal in place: its queues in the pool of character lists, the buffer
    `canonb`, and the count of delimiters. */
module Tty {
  import opened Common
  import opened LineEditor
  import T = Terminal
  import Clists

  const CANBSIZ := 256
  const RAWQ := 0
  const CANQ := 1
  const OUTQ := 2

  lemma NothingFed(m: Mode)
    ensures T.Fed([], m) == T.Editor([], [])
  {
  }

  class Device {
    const pool: Clists.Pool
    const canonb: array<Byte>
    var delct: Byte
    var mode: Mode

    ghost predicate Valid()
      reads this, canonb, pool, pool.mem, pool.next, pool.heads
    {
      && pool.Valid() && pool.heads.Length == 3
      && canonb != pool.mem && canonb.Length == CANBSIZ
      && canonb[0] != ESCAPE && canonb[1] != ESCAPE
    }

    constructor (nclist: nat, m: Mode)
      ensures Valid() && fresh(pool) && fresh(canonb) && mode == m && delct == 0
      ensures pool.text == [[], [], []]
    {
      pool := new Clists.Pool(nclist, 3);
      canonb := new Byte[CANBSIZ](_ => 0);
      delct, mode := 0, m;
      new;
      assert pool.text == [[], [], []];
    }

    ghost function Queue(k: nat): seq<Byte>
      requires k < 3 && |pool.text| == 3
      reads this, pool
    {
      pool.text[k]
    }

    // ----- input

    /** One queue read out. */
    method Drain(k: nat)
      requires Valid() && k < 3
      modifies pool, pool.mem, pool.next, pool.heads
      ensures Valid() && pool.text == old(pool.text)[k := []]
    {
      var c := 0;
      while c >= 0
        invariant Valid() && |pool.text| == 3
        invariant pool.text == old(pool.text)[k := pool.text[k]]
        invariant c < 0 ==> pool.text[k] == []
        decreases |pool.text[k]|, c
        modifies pool, pool.mem, pool.next, pool.heads
      {
        c := pool.Getc(k);
      }
    }

    method Flushtty()
      requires Valid()
      modifies this`delct, pool, pool.mem, pool.next, pool.heads
      ensures Valid() && pool.text == [[], [], []] && delct == 0
    {
      Drain(CANQ);
      Drain(OUTQ);
      Drain(RAWQ);
      delct := 0;
    }

    /** A character on the raw queue, and a delimiter after it if it ends a line. */
    method PutInput(c: Byte) returns (woke: bool, ghost ok: bool, ghost okDelim: bool)
      requires Valid()
      modifies this`delct, pool, pool.mem, pool.next, pool.heads
      ensures Valid() && (okDelim ==> ok) && (woke <==> T.Ends(mode, c)) && (!ok ==> pool.free == [])
      ensures T.Lines(Queue(RAWQ), delct) == T.Put(T.Lines(old(Queue(RAWQ)), old(delct)), mode, c, ok, okDelim)
      ensures Queue(CANQ) == old(Queue(CANQ)) && Queue(OUTQ) == old(Queue(OUTQ))
    {
      pool.CountIs(RAWQ);
      var r := pool.Putc(c, RAWQ);
      ok, okDelim, woke := r == 0, false, mode.raw || c == 10 || c == EOT;
      if woke {
        r := pool.Putc(DELIM, RAWQ);
        if r == 0 {
          okDelim := true;
          delct := (delct + 1) % 256;
        }
      }
    }

    /** A character from the device, but for its echo: what the machine's step does
        to the queue and the count, and whether a sleeping reader is woken. */
    method Ttyinput(ac: int) returns (woke: bool, ghost ok: bool, ghost okDelim: bool)
      requires Valid()
      modifies this`delct, pool, pool.mem, pool.next, pool.heads
      ensures Valid() && (okDelim ==> ok)
      ensures var q := T.Lines(old(Queue(RAWQ)), old(delct)); var q' := T.Lines(Queue(RAWQ), delct);
              var c := T.Lowered(T.Seven(ac, mode), mode);
              if T.Flushes(q, mode, ac) then woke && pool.text == [[], [], []] && delct == 0
              else && q' == T.Put(q, mode, c, ok, okDelim) && (woke <==> T.Ends(mode, c))
                   && Queue(CANQ) == old(Queue(CANQ)) && Queue(OUTQ) == old(Queue(OUTQ))
      ensures !ok ==> pool.free == []
    {
      pool.CountIs(RAWQ);
      hide T.Put, T.Ends;
      var c := ac % 128;
      if c == 13 && mode.crmod {
        c := 10;
      }
      if !mode.raw && (c == CQUIT || c == CINTR) {
        Flushtty();
        return true, true, true;
      }
      if pool.heads[RAWQ].cc >= T.TTYHOG {
        Flushtty();
        return true, true, true;
      }
      if mode.lcase && 65 <= c <= 90 {
        c := c + 32;
      }
      woke, ok, okDelim := PutInput(c);
    }

    // ----- taking a line

    ghost function Line(bp: nat): seq<Byte>
      requires 2 <= bp <= canonb.Length
      reads canonb
    {
      canonb[2..bp]
    }

    /** A character into the buffer, or what it takes out of it; `bp` is the end. */
    method EditChar(c: Byte, bp: nat) returns (bp': nat)
      requires Valid() && 2 <= bp < CANBSIZ
      modifies canonb
      ensures Valid() && 2 <= bp' <= CANBSIZ
      ensures Line(bp') == Edit(old(Line(bp)), c, mode)
    {
      ghost var line := Line(bp);
      var e := c;
      bp' := bp;
      if !mode.raw {
        if canonb[bp - 1] != ESCAPE {
          if c == mode.erase {
            if bp > 2 {
              bp' := bp - 1;
            }
            return;
          }
          if c == mode.kill {
            return 2;
          }
          if c == EOT {
            return;
          }
        } else if Maptab(c) != 0 && (Maptab(c) == c || mode.lcase) {
          if canonb[bp - 2] != ESCAPE {
            e := Maptab(c);
          }
          bp' := bp - 1;
        }
      }
      canonb[bp'] := e;
      bp' := bp' + 1;
    }

    /** What taking characters up to a delimiter, to a full buffer or to the end of
        the queue comes to. */
    ghost predicate Took(taken: seq<Byte>, raw: seq<Byte>, raw': seq<Byte>, line: seq<Byte>, ended: bool)
      reads this
    {
      && raw == taken + raw'
      && T.Fed(taken, mode) == (if ended then T.Editor(line, []) else T.Editor([], line))
      && (if ended then taken != [] && T.Fed(taken[..|taken|-1], mode).out == [] else raw' == [])
    }

    /** Whether a delimiter ended it. */
    ghost predicate Counts(taken: seq<Byte>, ended: bool) {
      ended && taken != [] && taken[|taken|-1] == DELIM
    }

    /** Once round the loop: the next character, if any, into the line. */
    method TakeOne(bp: nat) returns (c: int, bp': nat)
      requires Valid() && 2 <= bp < CANBSIZ
      modifies canonb, this`delct, pool, pool.mem, pool.next, pool.heads
      ensures Valid() && 2 <= bp' <= CANBSIZ
      ensures Queue(CANQ) == old(Queue(CANQ)) && Queue(OUTQ) == old(Queue(OUTQ))
      ensures old(Queue(RAWQ)) == [] ==>
                c == -1 && Queue(RAWQ) == [] && Line(bp') == old(Line(bp)) && delct == old(delct)
      ensures old(Queue(RAWQ)) != [] ==> c == old(Queue(RAWQ))[0] && Queue(RAWQ) == old(Queue(RAWQ))[1..]
      ensures c == DELIM ==> Line(bp') == old(Line(bp)) && delct == (old(delct) + 255) % 256
      ensures 0 <= c < 255 ==> Line(bp') == Edit(old(Line(bp)), c, mode) && delct == old(delct)
    {
      hide Edit;
      bp' := bp;
      c := pool.Getc(RAWQ);
      if c == DELIM {
        delct := (delct + 255) % 256;
      } else if c >= 0 {
        bp' := EditChar(c, bp);
      }
    }

    method TakeLine() returns (bp: nat, ghost taken: seq<Byte>, ghost ended: bool)
      requires Valid()
      modifies canonb, this`delct, pool, pool.mem, pool.next, pool.heads
      ensures Valid() && 2 <= bp <= CANBSIZ
      ensures Took(taken, old(Queue(RAWQ)), Queue(RAWQ), Line(bp), ended)
      ensures delct == if Counts(taken, ended) then (old(delct) + 255) % 256 else old(delct)
      ensures Queue(CANQ) == old(Queue(CANQ)) && Queue(OUTQ) == old(Queue(OUTQ))
    {
      hide Edit, T.Fed;
      bp, taken, ended := 2, [], false;
      ghost var raw := Queue(RAWQ);
      NothingFed(mode);
      var c := 0;
      while c >= 0
        invariant Valid() && 2 <= bp < CANBSIZ && delct == old(delct) && !ended
        invariant raw == taken + Queue(RAWQ) && T.Fed(taken, mode) == T.Editor([], Line(bp))
        invariant c < 0 ==> Queue(RAWQ) == []
        invariant Queue(CANQ) == old(Queue(CANQ)) && Queue(OUTQ) == old(Queue(OUTQ))
        decreases |Queue(RAWQ)|, c
        modifies canonb, this`delct, pool, pool.mem, pool.next, pool.heads
      {
        ghost var before := taken;
        c, bp := TakeOne(bp);
        if c >= 0 {
          taken := before + [c];
          T.FedOne(before, c, mode);
          assert taken[..|taken|-1] == before;
          if c == DELIM || bp >= CANBSIZ {
            ended := true;
            return;
          }
        }
      }
    }

    /** The line onto the canonical queue. */
    method GiveLine(bp: nat)
      requires Valid() && 2 <= bp <= CANBSIZ
      modifies pool, pool.mem, pool.next, pool.heads
      ensures Valid() && Queue(RAWQ) == old(Queue(RAWQ)) && Queue(OUTQ) == old(Queue(OUTQ))
      ensures old(Queue(CANQ)) <= Queue(CANQ) <= old(Queue(CANQ)) + Line(bp)
      ensures Queue(CANQ) == old(Queue(CANQ)) + Line(bp) || pool.free == []
    {
      var i := 2;
      ghost var n := 0;
      while i < bp
        invariant Valid() && 2 <= i <= bp && n <= i - 2
        invariant Queue(CANQ) == old(Queue(CANQ)) + Line(bp)[..n]
        invariant n == i - 2 || pool.Full(CANQ)
        invariant Queue(RAWQ) == old(Queue(RAWQ)) && Queue(OUTQ) == old(Queue(OUTQ))
        modifies pool, pool.mem, pool.next, pool.heads
      {
        var r := pool.Putc(canonb[i], CANQ);
        if r == 0 {
          assert Line(bp)[..n+1] == Line(bp)[..n] + [canonb[i]];
          n := n + 1;
        }
        i := i + 1;
      }
      if n == bp - 2 { assert Line(bp)[..n] == Line(bp); }
    }

    /** `canon` once it is past its test, with no interrupt: the first line of the
        raw queue, edited, goes onto the canonical queue, all of it unless the
        blocks run out. */
    method Canon() returns (ghost line: seq<Byte>, ghost taken: seq<Byte>, ghost ended: bool)
      requires Valid() && delct != 0
      modifies canonb, this`delct, pool, pool.mem, pool.next, pool.heads
      ensures Valid() && Took(taken, old(Queue(RAWQ)), Queue(RAWQ), line, ended)
      ensures delct == if Counts(taken, ended) then old(delct) - 1 else old(delct)
      ensures old(Queue(CANQ)) <= Queue(CANQ) <= old(Queue(CANQ)) + line
      ensures Queue(CANQ) == old(Queue(CANQ)) + line || pool.free == []
    {
      var bp;
      bp, taken, ended := TakeLine();
      line := Line(bp);
      GiveLine(bp);
    }
  }
}
