/** The editor's temporary file: lines kept in blocks, through one buffer for
    reading and one for writing. */
module EdStore {
  import opened Common

  const BLOCK := 512
  const MAXBLOCK := 255
  const NEWLINE: Byte := 10

  /** A buffer's contents. */
  type Block = s: seq<Byte> | |s| == 512 witness seq(512, _ => 0)

  /** `(atl>>8)&0377`, of a 16-bit address. */
  function BlockOf(atl: nat): nat { atl / 256 % 256 }

  /** `(atl<<1)&0774`: the bottom bit of an address is not part of it. */
  function OffsetOf(atl: nat): (o: nat)
    ensures o < BLOCK && o % 4 == 0
  {
    atl % 256 / 2 * 4
  }

  /** What the next address is further on by, after a line of `n` bytes. */
  function Room(n: nat): (r: nat)
    ensures r % 2 == 0 && n <= 2 * r < n + 4
  {
    (n + 3) / 4 * 2
  }

  /** The byte at a position of the file as it stands, the last block being that in
      the write buffer. */
  function Mem(file: seq<Block>, obuff: seq<Byte>, x: nat): int
    requires |obuff| == BLOCK
  {
    if x / BLOCK < |file| then file[x / BLOCK][x % BLOCK]
    else if x / BLOCK == |file| then obuff[x % BLOCK] else 0
  }

  /** The line at an address, and the 0 after it. */
  ghost predicate Stored(file: seq<Block>, obuff: seq<Byte>, t: nat, text: seq<Byte>)
    requires |obuff| == BLOCK
  {
    && (forall i :: 0 <= i < |text| ==> text[i] != 0 && Mem(file, obuff, 2 * t + i) == text[i])
    && Mem(file, obuff, 2 * t + |text|) == 0
  }

  /** Every line is at its address, and ends before `tline`. */
  ghost predicate AllStored(file: seq<Block>, obuff: seq<Byte>, lines: map<nat, seq<Byte>>, tline: nat)
    requires |obuff| == BLOCK
  {
    forall t :: t in lines ==> t % 2 == 0 && 2 * t + |lines[t]| < 2 * tline && Stored(file, obuff, t, lines[t])
  }

  /** A line as far as its newline, if it has one. */
  function LineOf(s: seq<Byte>): (r: seq<Byte>)
    ensures r <= s && NEWLINE !in r
    ensures |r| < |s| ==> s[|r|] == NEWLINE
  {
    if s == [] || s[0] == NEWLINE then [] else [s[0]] + LineOf(s[1..])
  }

  class Store {
    var file: seq<Block>
    const ibuff: array<Byte>
    const obuff: array<Byte>
    var iblock: int
    var oblock: int
    var ichanged: bool
    var tline: nat
    var linebuf: seq<Byte>
    ghost var lines: map<nat, seq<Byte>>

    /** The write buffer has the block the file ends with, the blocks before it have
        been written, and the read buffer has one of them. */
    ghost predicate Held()
      reads this, ibuff, obuff
    {
      && ibuff.Length == obuff.Length == BLOCK && ibuff != obuff
      && -1 <= oblock < MAXBLOCK
      && |file| == (if oblock < 0 then 0 else oblock)
      && -1 <= iblock < |file| && (ichanged ==> iblock >= 0)
      && (iblock >= 0 && !ichanged ==> ibuff[..] == file[iblock])
    }

    /** In the use that is made of it the read buffer is never written to. */
    ghost predicate Buffers()
      reads this, ibuff, obuff
    {
      Held() && !ichanged
    }

    /** Every line is where its address says, and the next goes after them all. */
    ghost predicate Valid()
      reads this, ibuff, obuff
    {
      && Buffers() && tline % 2 == 0
      && (if oblock < 0 then tline == 0 else oblock * 256 < tline <= (oblock + 1) * 256)
      && AllStored(file, obuff[..], lines, tline)
    }

    constructor ()
      ensures Valid() && lines == map[] && fresh(ibuff) && fresh(obuff)
    {
      file, ibuff, obuff := [], new Byte[512](_ => 0), new Byte[512](_ => 0);
      iblock, oblock, ichanged, tline, linebuf, lines := -1, -1, false, 0, [], map[];
    }

    // ----- blkio

    method WriteBlock(b: nat, buf: array<Byte>)
      requires buf.Length == BLOCK && b <= |file|
      modifies `file
      ensures file == if b < |old(file)| then old(file)[b := buf[..]] else old(file) + [buf[..]]
    {
      if b < |file| { file := file[b := buf[..]]; } else { file := file + [buf[..]]; }
    }

    method ReadBlock(b: nat, buf: array<Byte>)
      requires buf.Length == BLOCK && b < |file|
      modifies buf
      ensures buf[..] == file[b]
    {
      forall i | 0 <= i < BLOCK { buf[i] := file[b][i]; }
    }

    // ----- getblock

    /** `getblock` to read: the buffer that has the block, and the place in it. */
    method GetRead(atl: nat) returns (buf: array<Byte>, off: nat)
      requires Held() && BlockOf(atl) <= oblock
      modifies `file, `iblock, `ichanged, ibuff
      ensures Held() && off == OffsetOf(atl) && (old(!ichanged) ==> file == old(file) && !ichanged)
      ensures buf == (if BlockOf(atl) == oblock then obuff else ibuff)
      ensures (BlockOf(atl) != oblock ==> iblock == BlockOf(atl))
    {
      var bno := BlockOf(atl);
      off := OffsetOf(atl);
      if bno == iblock {
        return ibuff, off;
      }
      if bno == oblock {
        return obuff, off;
      }
      if ichanged {
        WriteBlock(iblock, ibuff);
      }
      ichanged := false;
      iblock := bno;
      ReadBlock(bno, ibuff);
      return ibuff, off;
    }

    /** `getblock` to write: false when the file is full. */
    method GetWrite(atl: nat) returns (ok: bool, off: nat)
      requires Held() && BlockOf(atl) <= oblock + 1
      modifies `file, `oblock, `ichanged
      ensures off == OffsetOf(atl) && ok == (BlockOf(atl) < MAXBLOCK)
      ensures ok && BlockOf(atl) == iblock ==> Held() && ichanged && file == old(file) && oblock == old(oblock)
      ensures !ok || BlockOf(atl) == old(oblock) ==>
                Held() && ichanged == old(ichanged) && file == old(file) && oblock == old(oblock)
      ensures ok && BlockOf(atl) > old(oblock) ==>
                && Held() && ichanged == old(ichanged) && oblock == BlockOf(atl)
                && file == if old(oblock) < 0 then [] else old(file) + [obuff[..]]
    {
      var bno := BlockOf(atl);
      off := OffsetOf(atl);
      if bno >= MAXBLOCK {
        return false, off;
      }
      ok := true;
      if bno == iblock {
        ichanged := true;
        return;
      }
      if bno == oblock {
        return;
      }
      if oblock >= 0 {
        WriteBlock(oblock, obuff);
      }
      oblock := bno;
    }

    // ----- putline and getline

    /** A byte into the write buffer. */
    method Poke(i: nat, c: Byte)
      requires Buffers() && i < BLOCK && oblock >= 0
      modifies obuff
      ensures Buffers() && obuff[..] == old(obuff[..])[i := c]
      ensures forall x: nat :: Mem(file, obuff[..], x) ==
                if x == oblock * BLOCK + i then c as int else Mem(file, old(obuff[..]), x)
    {
      hide Mem;
      obuff[i] := c;
      assert obuff[..] == old(obuff[..])[i := c];
      forall x: nat
        ensures Mem(file, obuff[..], x) == if x == oblock * BLOCK + i then c as int else Mem(file, old(obuff[..]), x)
      {
        MemPoked(file, old(obuff[..]), i, c, x);
      }
    }

    /** The next block, written to from its start. */
    method NextBlock(tl: nat) returns (ok: bool)
      requires Buffers() && oblock >= 0 && tl == (oblock + 1) * 256
      modifies `file, `oblock, `ichanged
      ensures Buffers() && ok == (old(oblock) + 1 < MAXBLOCK) && oblock == old(oblock) + if ok then 1 else 0
      ensures forall x: nat :: x < (old(oblock) + 1) * BLOCK ==> Mem(file, obuff[..], x) == Mem(old(file), obuff[..], x)
    {
      ghost var was := file;
      var off;
      ok, off := GetWrite(tl);
      hide Mem;
      forall x: nat | x < (old(oblock) + 1) * BLOCK ensures Mem(file, obuff[..], x) == Mem(was, obuff[..], x) {
        if ok { MemGrown(was, obuff[..], x); }
      }
    }

    /** `putline`: `s` is the line buffer up to its 0; what follows a newline comes
        back.  Nothing is lost when the file is full. */
    method PutLine(s: seq<Byte>) returns (ok: bool, t: nat, rest: seq<Byte>)
      requires Valid() && |s| < BLOCK && 0 !in s
      modifies `file, `oblock, `ichanged, `tline, `lines, obuff
      ensures Valid()
      ensures ok <==> (2 * old(tline) + |LineOf(s)|) / BLOCK < MAXBLOCK
      ensures !ok ==> lines == old(lines) && tline == old(tline)
      ensures ok ==> && t == old(tline) && t !in old(lines) && lines == old(lines)[t := LineOf(s)]
                     && tline == t + Room(|LineOf(s)| + 1)
      ensures ok && |LineOf(s)| < |s| ==> rest == s[|LineOf(s)|+1..]
    {
      hide Mem, Stored, LineOf, BlockOf, OffsetOf, Room, AllStored;
      rest := [];
      t := tline;
      ghost var text, file0, obuff0 := LineOf(s), file, obuff[..];
      InFile(tline, oblock);
      ghost var oblock0 := oblock;
      var bp;
      ok, bp := GetWrite(tline);
      Straddle(t, |text|);
      if !ok { return; }
      FirstBlock(file0, obuff0, oblock0, file, tline);
      var lp;
      ok, lp, rest := Fill(s, t, bp, file0, obuff0);
      LinesKept(file0, obuff0, file, obuff[..], lines, t);
      if !ok { return; }
      tline := tline + Room(lp);
      NextAddress(t, lp, oblock);
      LineStored(file, obuff[..], t, text, s);
      OneMore(file, obuff[..], lines, t, text, tline);
      lines := lines[t := text];
    }

    /** The bytes of a line, and the 0 after them, from place `bp` of the write
        buffer on and into the next block if need be. */
    method Fill(s: seq<Byte>, t: nat, bp0: nat, ghost file0: seq<Block>, ghost obuff0: seq<Byte>)
      returns (ok: bool, lp: nat, rest: seq<Byte>)
      requires Buffers() && oblock >= 0 && |s| < BLOCK && |obuff0| == BLOCK
      requires bp0 < BLOCK && oblock * BLOCK + bp0 == 2 * t
      requires forall x: nat :: x < 2 * t ==> Mem(file, obuff[..], x) == Mem(file0, obuff0, x)
      modifies `file, `oblock, `ichanged, obuff
      ensures Buffers() && oblock >= old(oblock)
      ensures forall x: nat :: x < 2 * t ==> Mem(file, obuff[..], x) == Mem(file0, obuff0, x)
      ensures ok == ((2 * t + |LineOf(s)|) / BLOCK < MAXBLOCK)
      ensures !ok ==> oblock == MAXBLOCK - 1 && oblock * BLOCK < 2 * t
      ensures ok ==> lp == |LineOf(s)| + 1 && oblock * BLOCK <= 2 * t + |LineOf(s)| < (oblock + 1) * BLOCK
      ensures ok ==> forall i :: 0 <= i < |LineOf(s)| ==> Mem(file, obuff[..], 2 * t + i) == LineOf(s)[i]
      ensures ok ==> Mem(file, obuff[..], 2 * t + |LineOf(s)|) == 0
      ensures ok && |LineOf(s)| < |s| ==> rest == s[|LineOf(s)|+1..]
    {
      hide Mem, LineOf, BlockOf, OffsetOf;
      ghost var text := LineOf(s);
      var bp: nat, nl: nat, tl: nat := bp0, BLOCK - bp0, oblock * 256;
      ok, lp, rest := true, 0, [];
      while true
        invariant Buffers() && lp <= |text| && oblock >= old(oblock) && tl == oblock * 256
        invariant 0 < nl && bp + nl == BLOCK && oblock * BLOCK + bp == 2 * t + lp
        invariant forall x: nat :: x < 2 * t ==> Mem(file, obuff[..], x) == Mem(file0, obuff0, x)
        invariant forall i :: 0 <= i < lp ==> Mem(file, obuff[..], 2 * t + i) == text[i]
        decreases |text| - lp
      {
        LineStops(s, lp);
        if lp == |s| || s[lp] == NEWLINE {
          if lp < |s| {
            Poke(bp, s[lp]);
            rest := s[lp+1..];
          }
          Poke(bp, 0);
          lp := lp + 1;
          return;
        }
        Poke(bp, s[lp]);
        lp, bp, nl := lp + 1, bp + 1, nl - 1;
        if nl == 0 {
          tl := tl + 256;
          ok := NextBlock(tl);
          if !ok { return; }
          bp, nl := 0, BLOCK;
        }
      }
    }

    /** The buffer holds block `b` of the file. */
    ghost predicate Has(buf: array<Byte>, b: int)
      reads this, ibuff, obuff
    {
      Buffers() && 0 <= b <= oblock && if b == oblock then buf == obuff else buf == ibuff && iblock == b
    }

    lemma Peek(buf: array<Byte>, b: int, i: nat)
      requires Has(buf, b) && i < BLOCK
      ensures buf.Length == BLOCK && buf[i] == Mem(file, obuff[..], b * BLOCK + i)
    {
      assert b < oblock ==> buf[i] == buf[..][i];
    }

    /** `getline`: the line last stored at an address, whose bottom bit does not
        count. */
    method GetLine(atl: nat)
      requires Valid() && atl - atl % 2 in lines
      modifies `file, `iblock, `ichanged, `linebuf, ibuff
      ensures Valid() && linebuf == lines[atl - atl % 2]
      ensures lines == old(lines) && tline == old(tline) && file == old(file)
    {
      ghost var t, text := atl - atl % 2, lines[atl - atl % 2];
      hide Mem, BlockOf, OffsetOf, Stored, AllStored, Has;
      LineThere(t, text);
      InRange(atl, tline, oblock, |text|);
      var tl: nat := atl - atl % 256;
      ghost var b: nat := atl / 256;
      var buf: array<Byte>, bp: nat;
      buf, bp := ReadAt(atl, b);
      HasBuffers(buf, b);
      linebuf := Collect(buf, bp, tl, b, t, text);
    }

    /** The bytes of a line up to its 0, from place `bp0` of a buffer on. */
    method Collect(buf0: array<Byte>, bp0: nat, tl0: nat, ghost b0: nat, ghost t: nat,
                   ghost text: seq<Byte>) returns (lp: seq<Byte>)
      requires Has(buf0, b0) && tl0 == b0 * 256 && bp0 < BLOCK && b0 * BLOCK + bp0 == 2 * t
      requires Buffers() && Stored(file, obuff[..], t, text)
      requires 2 * t + |text| < 2 * tline && oblock < MAXBLOCK
      requires if oblock < 0 then tline == 0 else oblock * 256 < tline <= (oblock + 1) * 256
      modifies `file, `iblock, `ichanged, ibuff
      ensures Buffers() && lp == text && file == old(file)
    {
      hide Mem, BlockOf, OffsetOf, Stored, Has;
      var buf, bp: nat, tl: nat := buf0, bp0, tl0;
      ghost var b: nat := b0;
      var nl: nat := BLOCK - bp;
      lp := [];
      while true
        invariant file == old(file) && Has(buf, b) && tl == b * 256
        invariant |lp| <= |text| && lp == text[..|lp|]
        invariant 0 < nl && bp + nl == BLOCK && b * BLOCK + bp == 2 * t + |lp|
        modifies `file, `iblock, `ichanged, ibuff
        decreases |text| - |lp|
      {
        var c := Look(buf, bp, b, t, text, |lp|);
        if c == 0 { break; }
        lp := lp + [c];
        bp, nl := bp + 1, nl - 1;
        if nl == 0 {
          tl, b := tl + 256, b + 1;
          NextIn(tl, b, tline, oblock, 2 * t + |lp|);
          HasBuffers(buf, b - 1);
          buf, bp := ReadAt(tl, b);
          nl := BLOCK - bp;
        }
      }
      HasBuffers(buf, b);
    }

    /** The byte of a line at its place in the buffer. */
    method Look(buf: array<Byte>, bp: nat, ghost b: nat, ghost t: nat, ghost text: seq<Byte>,
                ghost k: nat) returns (c: Byte)
      requires Has(buf, b) && bp < BLOCK && k <= |text| && b * BLOCK + bp == 2 * t + k
      requires obuff.Length == BLOCK && Stored(file, obuff[..], t, text)
      ensures c == (if k < |text| then text[k] else 0) && (k < |text| ==> c != 0)
    {
      hide Has, Mem, Stored;
      Peek(buf, b, bp);
      StoredAt(file, obuff[..], t, text, k);
      c := buf[bp];
    }

    lemma HasBuffers(buf: array<Byte>, b: int)
      requires Has(buf, b)
      ensures Buffers()
    {
    }

    method ReadAt(atl: nat, ghost b: nat) returns (buf: array<Byte>, off: nat)
      requires Buffers() && b == BlockOf(atl) <= oblock
      modifies `file, `iblock, `ichanged, ibuff
      ensures file == old(file) && off == OffsetOf(atl) && Has(buf, b)
    {
      buf, off := GetRead(atl);
    }

    lemma LineThere(t: nat, text: seq<Byte>)
      requires Valid() && t in lines && lines[t] == text
      ensures Stored(file, obuff[..], t, text) && 2 * t + |text| < 2 * tline
    {
    }
  }

  lemma StoredAt(file: seq<Block>, obuff: seq<Byte>, t: nat, text: seq<Byte>, i: nat)
    requires |obuff| == BLOCK && Stored(file, obuff, t, text) && i <= |text|
    ensures Mem(file, obuff, 2 * t + i) == (if i < |text| then text[i] as int else 0) && (i < |text| ==> text[i] != 0)
  {
  }

  /** A line's address is in a block of the file, at its place there. */
  lemma InRange(atl: nat, tline: nat, oblock: int, n: nat)
    requires 2 * (atl - atl % 2) + n < 2 * tline && oblock < MAXBLOCK
    requires if oblock < 0 then tline == 0 else oblock * 256 < tline <= (oblock + 1) * 256
    ensures 0 <= BlockOf(atl) == atl / 256 <= oblock && atl / 256 * BLOCK + OffsetOf(atl) == 2 * (atl - atl % 2)
  {
  }

  lemma NextIn(tl: nat, b: nat, tline: nat, oblock: int, x: nat)
    requires tl == b * 256 && b * BLOCK == x < 2 * tline && oblock < MAXBLOCK
    requires if oblock < 0 then tline == 0 else oblock * 256 < tline <= (oblock + 1) * 256
    ensures BlockOf(tl) == b <= oblock && OffsetOf(tl) == 0
  {
  }

  /** A line that starts where the file is full does not fit. */
  lemma Straddle(t: nat, n: nat)
    ensures t / 256 >= MAXBLOCK ==> (2 * t + n) / BLOCK >= MAXBLOCK
  {
  }

  /** Lines below an address stand if the bytes below it do. */
  lemma LinesKept(file0: seq<Block>, obuff0: seq<Byte>, file: seq<Block>, obuff: seq<Byte>, lines: map<nat,
                  seq<Byte>>, tline: nat)
    requires |obuff0| == BLOCK == |obuff|
    requires forall x: nat :: x < 2 * tline ==> Mem(file, obuff, x) == Mem(file0, obuff0, x)
    requires AllStored(file0, obuff0, lines, tline)
    ensures AllStored(file, obuff, lines, tline) && tline !in lines
  {
    hide Mem;
    forall t | t in lines ensures Stored(file, obuff, t, lines[t]) {
      assert Stored(file0, obuff0, t, lines[t]);
    }
  }

  lemma LineStored(file: seq<Block>, obuff: seq<Byte>, t: nat, text: seq<Byte>, s: seq<Byte>)
    requires |obuff| == BLOCK && text <= s && 0 !in s
    requires forall i :: 0 <= i < |text| ==> Mem(file, obuff, 2 * t + i) == text[i]
    requires Mem(file, obuff, 2 * t + |text|) == 0
    ensures Stored(file, obuff, t, text)
  {
    hide Mem;
    assert forall i :: 0 <= i < |text| ==> text[i] == s[i] && s[i] in s;
  }

  lemma OneMore(file: seq<Block>, obuff: seq<Byte>, lines: map<nat, seq<Byte>>, t: nat, text: seq<Byte>, tline: nat)
    requires |obuff| == BLOCK && AllStored(file, obuff, lines, t) && t % 2 == 0
    requires Stored(file, obuff, t, text) && 2 * t + |text| < 2 * tline
    ensures AllStored(file, obuff, lines[t := text], tline)
  {
    hide Stored;
  }

  lemma NextAddress(t: nat, n: nat, oblock: nat)
    requires t % 2 == 0 && n > 0 && oblock * BLOCK <= 2 * t + n - 1 < (oblock + 1) * BLOCK
    ensures oblock * 256 < t + Room(n) <= (oblock + 1) * 256 && (t + Room(n)) % 2 == 0 && n <= 2 * Room(n)
  {
    var h, r := t / 2, (n + 3) / 4;
    assert t == 2 * h && Room(n) == 2 * r && n <= 4 * r <= n + 3;
    assert 4 * (h + r) <= 4 * 128 * (oblock + 1) + 3;
  }

  lemma MemPoked(file: seq<Block>, obuff: seq<Byte>, i: nat, c: Byte, x: nat)
    requires |obuff| == BLOCK && i < BLOCK
    ensures Mem(file, obuff[i := c], x) == if x == |file| * BLOCK + i then c as int else Mem(file, obuff, x)
  {
  }

  lemma MemGrown(file: seq<Block>, obuff: seq<Byte>, x: nat)
    requires |obuff| == BLOCK && x < (|file| + 1) * BLOCK
    ensures Mem(file + [obuff], obuff, x) == Mem(file, obuff, x)
  {
  }

  /** An address in the file, and its block. */
  lemma InFile(tline: nat, oblock: int)
    requires tline % 2 == 0 && -1 <= oblock < MAXBLOCK
    requires if oblock < 0 then tline == 0 else oblock * 256 < tline <= (oblock + 1) * 256
    ensures oblock <= BlockOf(tline) <= oblock + 1 && BlockOf(tline) * BLOCK + OffsetOf(tline) == 2 * tline
    ensures BlockOf(tline) == tline / 256
  {
  }

  lemma FirstBlock(file0: seq<Block>, obuff: seq<Byte>, oblock0: int, file: seq<Block>, tline: nat)
    requires |obuff| == BLOCK
    requires file == file0 || (oblock0 >= 0 && |file0| == oblock0 && tline == (oblock0 + 1) * 256
                               && file == file0 + [obuff])
    ensures forall x: nat :: x < 2 * tline ==> Mem(file, obuff, x) == Mem(file0, obuff, x)
  {
    forall x: nat | x < 2 * tline ensures Mem(file, obuff, x) == Mem(file0, obuff, x) {
      if file != file0 { MemGrown(file0, obuff, x); }
    }
  }

  lemma {:induction false} LineStops(s: seq<Byte>, k: nat)
    requires k <= |LineOf(s)|
    ensures k == |LineOf(s)| <==> k == |s| || s[k] == NEWLINE
    ensures k < |LineOf(s)| ==> LineOf(s)[k] == s[k]
  {
    if k < |LineOf(s)| { assert LineOf(s)[k] in LineOf(s); }
  }
}
