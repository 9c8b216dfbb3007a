/** The terminal's line editor as a function of what was typed: erase, kill and
    escapes, and exactly which texts can be typed. */
module LineEditor {
  import opened Common

  const DELIM: Byte := 255
  const EOT: Byte := 4
  const ESCAPE: Byte := 92

  /** A line of the buffer `canonb`, less the two bytes before it. */
  const LIMIT := 254

  datatype Mode = Mode(raw: bool, lcase: bool, crmod: bool, erase: Byte, kill: Byte)

  /** `maptab`: what an escaped character stands for, or 0. */
  function Maptab(c: Byte): Byte {
    if c == 4 || c == 35 || c == 64 then c
    else if c == 33 then 124
    else if c == 39 then 96
    else if c == 40 then 123
    else if c == 41 then 125
    else if c == 94 then 126
    else if 97 <= c <= 122 then c - 32
    else 0
  }

  predicate Escapes(m: Mode, c: Byte) {
    Maptab(c) != 0 && (Maptab(c) == c || m.lcase)
  }

  /** The line ends in a backslash, which may yet turn out to be an escape. */
  predicate Open(line: seq<Byte>) {
    line != [] && line[|line|-1] == ESCAPE
  }

  function Back(line: seq<Byte>): seq<Byte> {
    if line == [] then [] else line[..|line|-1]
  }

  /** One character of input, other than a delimiter. */
  function Edit(line: seq<Byte>, c: Byte, m: Mode): seq<Byte> {
    if m.raw then line + [c]
    else if !Open(line) then
      if c == m.erase then Back(line)
      else if c == m.kill then []
      else if c == EOT then line
      else line + [c]
    else if Escapes(m, c) then Back(line) + [if Open(Back(line)) then c else Maptab(c)]
    else line + [c]
  }

  function Edited(line: seq<Byte>, text: seq<Byte>, m: Mode): seq<Byte> {
    if text == [] then line else Edit(Edited(line, text[..|text|-1], m), text[|text|-1], m)
  }

  lemma EditedOne(line: seq<Byte>, text: seq<Byte>, c: Byte, m: Mode)
    ensures Edited(line, text + [c], m) == Edit(Edited(line, text, m), c, m)
  {
    assert (text + [c])[..|text|] == text;
  }

  lemma {:induction false} EditedConcat(line: seq<Byte>, a: seq<Byte>, b: seq<Byte>, m: Mode)
    ensures Edited(line, a + b, m) == Edited(Edited(line, a, m), b, m)
    decreases |b|
  {
    hide Edit;
    if b == [] {
      assert a + b == a;
    } else {
      var n := |b| - 1;
      EditedConcat(line, a, b[..n], m);
      assert (a + b)[..|a+b|-1] == a + b[..n] && (a + b)[|a+b|-1] == b[n];
    }
  }

  // ----- what erase and kill mean, looking at what comes after

  predicate Special(m: Mode, c: Byte) {
    c == m.erase || c == m.kill || c == EOT
  }

  /** The characters of a text without backslashes that are left, when `owed`
      erases still follow it: read from its end. */
  function Left(text: seq<Byte>, owed: nat, m: Mode): seq<Byte> {
    if text == [] then []
    else
      var c, rest := text[|text|-1], text[..|text|-1];
      if c == m.erase then Left(rest, owed + 1, m)
      else if c == m.kill then []
      else if c == EOT then Left(rest, owed, m)
      else if owed > 0 then Left(rest, owed - 1, m)
      else Left(rest, 0, m) + [c]
  }

  function Short(line: seq<Byte>, n: nat): seq<Byte> {
    if n >= |line| then [] else line[..|line|-n]
  }

  lemma {:induction false} LeftIs(text: seq<Byte>, owed: nat, m: Mode)
    requires !m.raw && ESCAPE !in text
    ensures Left(text, owed, m) == Short(Edited([], text, m), owed)
    ensures ESCAPE !in Edited([], text, m)
    decreases |text|
  {
    if text != [] {
      var c, rest := text[|text|-1], text[..|text|-1];
      var line := Edited([], rest, m);
      LeftIs(rest, owed, m);
      LeftIs(rest, owed + 1, m);
      if owed > 0 { LeftIs(rest, owed - 1, m); }
      LeftIs(rest, 0, m);
      assert Edited([], text, m) == Edit(line, c, m);
    }
  }

  /** Without escapes, the line is what is left when every erase takes the nearest
      character before it that is not taken, and a kill all before it. */
  lemma ErasedAndKilled(text: seq<Byte>, m: Mode)
    requires !m.raw && ESCAPE !in text
    ensures Edited([], text, m) == Left(text, 0, m)
  {
    LeftIs(text, 0, m);
  }

  /** A kill character that is not escaped: what was before it makes no difference. */
  lemma KillForgets(a: seq<Byte>, b: seq<Byte>, m: Mode)
    requires !m.raw && m.kill != m.erase && !Open(Edited([], a, m))
    ensures Edited([], a + [m.kill] + b, m) == Edited([], b, m)
  {
    EditedOne([], a, m.kill, m);
    EditedConcat([], a + [m.kill], b, m);
  }

  // ----- which texts can be typed

  const CINTR: Byte := 127
  const CQUIT: Byte := 27
  const NEWLINE: Byte := 10

  /** A character that can come into the middle of a line: seven bits, mapped as the
      terminal's mode has it, neither flushing the queue nor ending the line. */
  predicate Key(m: Mode, c: Byte) {
    && c < 128 && c != CINTR && c != CQUIT && c != NEWLINE && c != EOT
    && !(m.crmod && c == 13) && !(m.lcase && 65 <= c <= 90)
  }

  predicate AllKeys(m: Mode, typed: seq<Byte>) {
    forall i :: 0 <= i < |typed| ==> Key(m, typed[i])
  }

  /** Some escape stands for `c`, and a backslash can be typed at all. */
  predicate Reached(m: Mode, c: Byte) {
    && m.erase != ESCAPE && m.kill != ESCAPE
    && (c == 35 || c == 64
        || (m.lcase && (c == 124 || c == 96 || c == 123 || c == 125 || c == 126 || 65 <= c <= 90)))
  }

  function Unmap(c: Byte): Byte {
    if c == 124 then 33 else if c == 96 then 39 else if c == 123 then 40 else if c == 125 then 41
    else if c == 126 then 94 else if 65 <= c <= 90 then c + 32 else c
  }

  lemma ReachedIff(m: Mode, c: Byte)
    ensures Reached(m, c) <==> !Special(m, ESCAPE) && exists x: Byte :: Key(m, x) && Escapes(m, x) && Maptab(x) == c
    ensures Reached(m, c) ==> Key(m, Unmap(c)) && Escapes(m, Unmap(c)) && Maptab(Unmap(c)) == c
  {
    if Reached(m, c) {
      assert Key(m, Unmap(c)) && Escapes(m, Unmap(c)) && Maptab(Unmap(c)) == c;
    }
  }

  /** `c` can come after `line` in what is read: a key after a backslash, or one that
      does nothing else, or what an escape stands for. */
  predicate CanFollow(m: Mode, line: seq<Byte>, c: Byte) {
    if Open(line) then Key(m, c) else (Key(m, c) && !Special(m, c)) || Reached(m, c)
  }

  predicate Typeable(m: Mode, text: seq<Byte>) {
    forall i {:trigger text[i]} :: 0 <= i < |text| ==> CanFollow(m, text[..i], text[i])
  }

  /** How to type `c` after a line: as it is, or with a backslash before it. */
  function Quote(m: Mode, line: seq<Byte>, c: Byte): seq<Byte> {
    if Open(line) then (if Escapes(m, c) then [ESCAPE, c] else [c])
    else if Key(m, c) && !Special(m, c) then [c]
    else [ESCAPE, Unmap(c)]
  }

  lemma EditedTwo(line: seq<Byte>, x: Byte, y: Byte, m: Mode)
    ensures Edited(line, [x, y], m) == Edit(Edit(line, x, m), y, m) && Edited(line, [x], m) == Edit(line, x, m)
  {
    hide Edit;
    assert [x, y] == [x] + [y] && [x] == [] + [x];
    EditedOne(line, [], x, m);
    EditedOne(line, [x], y, m);
  }

  lemma QuotedIs(m: Mode, line: seq<Byte>, c: Byte)
    requires !m.raw && CanFollow(m, line, c)
    ensures Edited(line, Quote(m, line, c), m) == line + [c] && AllKeys(m, Quote(m, line, c))
  {
    ReachedIff(m, c);
    EditedTwo(line, c, c, m);
    if |Quote(m, line, c)| == 2 {
      var x := Quote(m, line, c)[1];
      EditedTwo(line, ESCAPE, x, m);
      EscapedIs(m, line, x);
      hide Edited, Edit;
    }
  }

  /** A backslash that stays open, and a character it escapes. */
  lemma EscapedIs(m: Mode, line: seq<Byte>, x: Byte)
    requires !m.raw && Escapes(m, x) && (Open(line) || !Special(m, ESCAPE))
    ensures Edit(Edit(line, ESCAPE, m), x, m) == line + [if Open(line) then x else Maptab(x)]
  {
    assert Edit(line, ESCAPE, m) == line + [ESCAPE];
    assert Back(line + [ESCAPE]) == line;
  }

  function Quoted(m: Mode, text: seq<Byte>): seq<Byte> {
    if text == [] then []
    else Quoted(m, text[..|text|-1]) + Quote(m, text[..|text|-1], text[|text|-1])
  }

  lemma TypeableFront(m: Mode, text: seq<Byte>)
    requires text != []
    ensures Typeable(m, text) <==> Typeable(m, text[..|text|-1]) && CanFollow(m, text[..|text|-1], text[|text|-1])
  {
    var n, t := |text| - 1, text[..|text|-1];
    assert forall i {:trigger t[i]} :: 0 <= i < n ==> t[..i] == text[..i] && t[i] == text[i];
    if Typeable(m, t) && CanFollow(m, t, text[n]) {
      forall i {:trigger text[i]} | 0 <= i <= n ensures CanFollow(m, text[..i], text[i]) {
        if i < n { assert text[i] == t[i]; }
      }
    }
  }

  /** What is typed with each character quoted comes out as it is meant. */
  lemma {:induction false} QuotedReads(m: Mode, text: seq<Byte>)
    requires !m.raw && Typeable(m, text)
    ensures Edited([], Quoted(m, text), m) == text && AllKeys(m, Quoted(m, text))
    decreases |text|
  {
    hide Edit, Quote, Key;
    if text != [] {
      var t, c := text[..|text|-1], text[|text|-1];
      TypeableFront(m, text);
      QuotedReads(m, t);
      EditedConcat([], Quoted(m, t), Quote(m, t, c), m);
      QuotedIs(m, t, c);
      assert text == t + [c];
    }
  }

  lemma EditStaysTypeable(m: Mode, line: seq<Byte>, c: Byte)
    requires !m.raw && Typeable(m, line) && Key(m, c)
    ensures Typeable(m, Edit(line, c, m))
  {
    var line' := Edit(line, c, m);
    if line != [] { TypeableFront(m, line); }
    if line' != [] {
      TypeableFront(m, line');
      assert (line + [c])[..|line|] == line;
      if Open(line) && Escapes(m, c) {
        var b := Back(line);
        assert line'[..|line'|-1] == b;
        ReachedIff(m, Maptab(c));
        assert CanFollow(m, b, ESCAPE);
      }
    }
  }

  lemma {:induction false} OnlyTypeable(m: Mode, typed: seq<Byte>)
    requires !m.raw && AllKeys(m, typed)
    ensures Typeable(m, Edited([], typed, m))
    decreases |typed|
  {
    if typed != [] {
      OnlyTypeable(m, typed[..|typed|-1]);
      EditStaysTypeable(m, Edited([], typed[..|typed|-1], m), typed[|typed|-1]);
    }
  }

  /** What can stand in a line before its end: the texts in which every character is
      a key with a backslash before it, a key that is not special, or what some
      escape stands for. */
  lemma WhatCanBeTyped(m: Mode, text: seq<Byte>)
    requires !m.raw
    ensures (exists typed :: AllKeys(m, typed) && Edited([], typed, m) == text) <==> Typeable(m, text)
  {
    if Typeable(m, text) {
      QuotedReads(m, text);
    }
    forall typed | AllKeys(m, typed) ensures Typeable(m, Edited([], typed, m)) {
      OnlyTypeable(m, typed);
    }
  }

  /** A whole line typed: keys, and a newline or an EOT. */
  predicate LineTyped(m: Mode, keys: seq<Byte>, end: Byte) {
    AllKeys(m, keys) && (end == NEWLINE || end == EOT)
  }

  /** A text that can be typed, with a newline; without, if it does not end in a
      backslash; or, if it does, with an EOT in the place of that. */
  predicate Readable(m: Mode, text: seq<Byte>) {
    || (Typeable(m, text) && !Open(text))
    || (text != [] && text[|text|-1] == NEWLINE && Typeable(m, Back(text)))
    || (text != [] && text[|text|-1] == EOT && Typeable(m, Back(text) + [ESCAPE]))
  }

  /** What a read can be given, when neither newline nor EOT is used to erase or kill. */
  lemma WhatCanBeRead(m: Mode, text: seq<Byte>)
    requires !m.raw && m.erase != NEWLINE && m.kill != NEWLINE && m.erase != EOT && m.kill != EOT
    ensures (exists keys, end :: LineTyped(m, keys, end) && Edited([], keys + [end], m) == text) <==> Readable(m, text)
  {
    hide Edited, Readable, Typeable;
    forall keys, end | LineTyped(m, keys, end) && Edited([], keys + [end], m) == text ensures Readable(m, text) {
      OnlyTypeable(m, keys);
      EditedOne([], keys, end, m);
      EndReadable(m, Edited([], keys, m), end);
    }
    if Readable(m, text) {
      var t, end := ReadableEnds(m, text);
      LineReads(m, t, end);
    }
  }

  lemma EndReadable(m: Mode, t: seq<Byte>, end: Byte)
    requires !m.raw && m.erase != NEWLINE && m.kill != NEWLINE && m.erase != EOT && m.kill != EOT
    requires Typeable(m, t) && (end == NEWLINE || end == EOT)
    ensures Readable(m, Edit(t, end, m))
  {
    var text := Edit(t, end, m);
    hide Typeable;
    if end == NEWLINE {
      assert text == t + [NEWLINE] && Back(text) == t;
    } else if Open(t) {
      assert text == Back(t) + [EOT] && Back(text) == Back(t) && Back(t) + [ESCAPE] == t;
    }
  }

  lemma ReadableEnds(m: Mode, text: seq<Byte>) returns (t: seq<Byte>, end: Byte)
    requires !m.raw && m.erase != NEWLINE && m.kill != NEWLINE && m.erase != EOT && m.kill != EOT
    requires Readable(m, text)
    ensures Typeable(m, t) && (end == NEWLINE || end == EOT) && Edit(t, end, m) == text
  {
    hide Typeable;
    if Typeable(m, text) && !Open(text) {
      t, end := text, EOT;
    } else if text[|text|-1] == NEWLINE && Typeable(m, Back(text)) {
      t, end := Back(text), NEWLINE;
      assert Back(text) + [NEWLINE] == text;
    } else {
      t, end := Back(text) + [ESCAPE], EOT;
      assert Back(t) + [EOT] == text;
    }
  }

  lemma LineReads(m: Mode, t: seq<Byte>, end: Byte)
    requires !m.raw && Typeable(m, t) && (end == NEWLINE || end == EOT)
    ensures LineTyped(m, Quoted(m, t), end) && Edited([], Quoted(m, t) + [end], m) == Edit(t, end, m)
  {
    QuotedReads(m, t);
    EditedOne([], Quoted(m, t), end, m);
  }

  /** With the usual `#` and `@`, on a terminal with both cases, every text of keys
      can be typed, and no other. */
  lemma UsualCharacters(m: Mode, text: seq<Byte>)
    requires !m.raw && m.erase == 35 && m.kill == 64 && !m.lcase
    ensures (exists typed :: AllKeys(m, typed) && Edited([], typed, m) == text) <==> AllKeys(m, text)
  {
    WhatCanBeTyped(m, text);
    if Typeable(m, text) {
      forall i | 0 <= i < |text| ensures Key(m, text[i]) { assert CanFollow(m, text[..i], text[i]); }
    }
  }
}
