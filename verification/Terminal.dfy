/** A terminal's input: characters arriving at interrupts while a process takes
    lines, as a state machine over the stretches interrupts do not divide. */
module Terminal {
  import opened Common
  import opened LineEditor

  const TTYHOG := 256

  // ----- the editor over a stream with delimiters

  /** What has been passed on, and the line being made up. */
  datatype Editor = Editor(out: seq<Byte>, line: seq<Byte>)

  function Feed(e: Editor, c: Byte, m: Mode): Editor {
    if c == DELIM then Editor(e.out + e.line, [])
    else
      var line := Edit(e.line, c, m);
      if |line| >= LIMIT then Editor(e.out + line, []) else Editor(e.out, line)
  }

  function Fed(text: seq<Byte>, m: Mode): Editor {
    if text == [] then Editor([], []) else Feed(Fed(text[..|text|-1], m), text[|text|-1], m)
  }

  lemma FedOne(text: seq<Byte>, c: Byte, m: Mode)
    ensures Fed(text + [c], m) == Feed(Fed(text, m), c, m)
  {
    assert (text + [c])[..|text|] == text;
  }

  /** More input only adds to what is passed on. */
  lemma {:induction false} FedGrows(a: seq<Byte>, b: seq<Byte>, m: Mode)
    ensures Fed(a, m).out <= Fed(a + b, m).out
    decreases |b|
  {
    if b == [] {
      assert a + b == a;
    } else {
      FedGrows(a, b[..|b|-1], m);
      FedOne(a + b[..|b|-1], b[|b|-1], m);
      assert a + b == a + b[..|b|-1] + [b[|b|-1]];
    }
  }

  /** A text shorter than the buffer and its delimiter: the line is as edited. */
  lemma {:induction false} OneLine(text: seq<Byte>, m: Mode)
    requires DELIM !in text && |text| < LIMIT
    ensures Fed(text, m) == Editor([], Edited([], text, m)) && |Edited([], text, m)| <= |text|
    ensures Fed(text + [DELIM], m) == Editor(Edited([], text, m), [])
    decreases |text|
  {
    FedOne(text, DELIM, m);
    if text != [] {
      var t, c := text[..|text|-1], text[|text|-1];
      OneLine(t, m);
      EditLonger(Edited([], t, m), c, m);
      hide Edit;
    }
  }

  lemma EditLonger(line: seq<Byte>, c: Byte, m: Mode)
    ensures |Edit(line, c, m)| <= |line| + 1
  {
  }

  // ----- the raw queue

  /** The raw queue and the count of its delimiters, eight bits wide. */
  datatype Lines = Lines(raw: seq<Byte>, delct: Byte)

  function Delims(s: seq<Byte>): nat {
    if s == [] then 0 else Delims(s[1..]) + if s[0] == DELIM then 1 else 0
  }

  lemma {:induction false} DelimsPut(s: seq<Byte>, c: Byte)
    ensures Delims(s + [c]) == Delims(s) + if c == DELIM then 1 else 0
    decreases |s|
  {
    if s == [] {
      assert [c][1..] == [];
    } else {
      assert (s + [c])[1..] == s[1..] + [c];
      DelimsPut(s[1..], c);
    }
  }

  ghost predicate Apart(s: seq<Byte>) {
    forall i :: 0 <= i < |s| - 1 ==> s[i] != DELIM || s[i+1] != DELIM
  }

  lemma {:induction false} DelimsApart(s: seq<Byte>)
    requires Apart(s)
    ensures 2 * Delims(s) <= |s| + 1 && (s != [] && s[0] != DELIM ==> 2 * Delims(s) <= |s|)
    decreases |s|
  {
    if s != [] {
      var t := s[1..];
      forall i | 0 <= i < |t| - 1 ensures t[i] != DELIM || t[i+1] != DELIM { assert t[i] == s[i+1]; }
      DelimsApart(t);
    }
  }

  lemma {:induction false} DelimsSome(s: seq<Byte>)
    ensures Delims(s) > 0 <==> DELIM in s
    decreases |s|
  {
    if s != [] { DelimsSome(s[1..]); }
  }

  /** The character as it is put: seven bits, and mapped. */
  function Seven(ac: int, m: Mode): Byte {
    var c := ac % 128;
    if c == 13 && m.crmod then 10 else c
  }

  function Lowered(c: Byte, m: Mode): Byte
    requires c < 128
  {
    if m.lcase && 65 <= c <= 90 then c + 32 else c
  }

  /** What `ttyinput` does with a character: everything is flushed, or it is put,
      and perhaps a delimiter after it, as far as there is room. */
  predicate Flushes(q: Lines, m: Mode, ac: int) {
    (!m.raw && (Seven(ac, m) == CQUIT || Seven(ac, m) == CINTR)) || |q.raw| >= TTYHOG
  }

  predicate Ends(m: Mode, c: Byte) { m.raw || c == 10 || c == EOT }

  /** In the cooked mode what is put without a flush is a key or ends the line, and
      every key and both ends can be put. */
  lemma KeysArePut(m: Mode, c: Byte)
    requires !m.raw
    ensures (exists ac: int {:trigger Seven(ac, m)} ::
               Seven(ac, m) != CQUIT && Seven(ac, m) != CINTR && Lowered(Seven(ac, m), m) == c)
            <==> Key(m, c) || c == NEWLINE || c == EOT
  {
    if Key(m, c) || c == NEWLINE || c == EOT {
      var ac: int := c;
      assert Seven(ac, m) == c && Lowered(c, m) == c;
    }
  }

  function Put(q: Lines, m: Mode, c: Byte, ok: bool, okDelim: bool): Lines {
    var raw := if ok then q.raw + [c] else q.raw;
    if Ends(m, c) && okDelim then Lines(raw + [DELIM], (q.delct + 1) % 256) else Lines(raw, q.delct)
  }

  // ----- the machine

  /** Where the reading process is: outside `canon`; asleep in it, or woken; in its
      loop with the line so far; between taking a delimiter and counting it;
      passing the line on. */
  datatype Phase =
    | Idle
    | Asleep
    | Woken
    | Taking(line: seq<Byte>)
    | AtDelim(line: seq<Byte>)
    | Giving(rest: seq<Byte>)

  /** Since the last flush: what was put on the raw queue, what of that was taken,
      what was put on the canonical queue and what of that was read. */
  datatype State = State(q: Lines, canq: seq<Byte>, phase: Phase,
                         typed: seq<Byte>, taken: seq<Byte>, given: seq<Byte>, read: seq<Byte>)

  datatype Event =
    | Type(ac: int, ok: bool, okDelim: bool)
    | Test(carrier: bool)
    | Take
    | Count
    | Give(ok: bool)
    | Done
    | Read

  ghost predicate Enabled(s: State, e: Event) {
    match e
    case Type(_, ok, okDelim) => okDelim ==> ok
    case Test(_) => (s.phase.Idle? && s.canq == []) || s.phase.Woken?
    case Take => s.phase.Taking?
    case Count => s.phase.AtDelim?
    case Give(_) => s.phase.Giving? && s.phase.rest != []
    case Done => s.phase == Giving([])
    case Read => s.phase.Idle? && s.canq != []
  }

  function Wake(p: Phase): Phase { if p.Asleep? then Woken else p }

  function FlushStep(s: State): State {
    State(Lines([], 0), [], Wake(s.phase), [], [], [], [])
  }

  function TypeStep(s: State, m: Mode, ac: int, ok: bool, okDelim: bool): State {
    if Flushes(s.q, m, ac) then FlushStep(s)
    else
      var c := Lowered(Seven(ac, m), m);
      var q' := Put(s.q, m, c, ok, okDelim);
      s.(q := q', typed := s.typed + q'.raw[|s.q.raw|..], phase := if Ends(m, c) then Wake(s.phase) else s.phase)
  }

  function TakeStep(s: State, m: Mode): State
    requires s.phase.Taking?
  {
    if s.q.raw == [] then s.(phase := Giving(s.phase.line))
    else
      var c := s.q.raw[0];
      var s1 := s.(q := s.q.(raw := s.q.raw[1..]), taken := s.taken + [c]);
      if c == DELIM then s1.(phase := AtDelim(s.phase.line))
      else
        var line := Edit(s.phase.line, c, m);
        s1.(phase := if |line| >= LIMIT then Giving(line) else Taking(line))
  }

  ghost function Next(s: State, m: Mode, e: Event): State
    requires Enabled(s, e)
  {
    match e
    case Type(ac, ok, okDelim) => TypeStep(s, m, ac, ok, okDelim)
    case Test(carrier) => s.(phase := if s.q.delct != 0 then Taking([]) else if carrier then Asleep else Idle)
    case Take => TakeStep(s, m)
    case Count => s.(q := s.q.(delct := (s.q.delct + 255) % 256), phase := Giving(s.phase.line))
    case Give(ok) =>
      var c := s.phase.rest[0];
      var s1 := s.(phase := Giving(s.phase.rest[1..]));
      if ok then s1.(canq := s.canq + [c], given := s.given + [c]) else s1
    case Done => s.(phase := Idle)
    case Read => s.(canq := s.canq[1..], read := s.read + [s.canq[0]])
  }

  // ----- the count of delimiters

  function Owed(p: Phase): nat { if p.AtDelim? then 1 else 0 }

  /** `t_delct` is the number of delimiters in the raw queue, and one more while
      one has been taken and not yet counted. */
  ghost predicate Counted(s: State) {
    && Apart(s.q.raw) && |s.q.raw| <= TTYHOG + 1
    && s.q.delct == Delims(s.q.raw) + Owed(s.phase)
    && (s.phase.Asleep? ==> s.q.delct == 0)
  }

  /** The one step that loses count: a flush between taking a delimiter and
      counting it. */
  ghost predicate Miscounts(s: State, m: Mode, e: Event) {
    e.Type? && Flushes(s.q, m, e.ac) && s.phase.AtDelim?
  }

  lemma PutCounts(q: Lines, m: Mode, c: Byte, ok: bool, okDelim: bool)
    requires Apart(q.raw) && |q.raw| < TTYHOG && c < 128 && (okDelim ==> ok)
    ensures var q' := Put(q, m, c, ok, okDelim);
            && Apart(q'.raw) && |q'.raw| <= |q.raw| + 2 && q.raw <= q'.raw
            && Delims(q'.raw) == Delims(q.raw) + (if Ends(m, c) && okDelim then 1 else 0)
  {
    DelimsPut(q.raw, c);
    DelimsPut(q.raw + [c], DELIM);
  }

  lemma TypeCounts(s: State, m: Mode, e: Event)
    requires Counted(s) && e.Type? && Enabled(s, e) && !Miscounts(s, m, e)
    ensures Counted(Next(s, m, e))
  {
    if !Flushes(s.q, m, e.ac) {
      var c := Lowered(Seven(e.ac, m), m);
      DelimsApart(s.q.raw);
      PutCounts(s.q, m, c, e.ok, e.okDelim);
      hide Delims, Apart, Put;
      var q' := Put(s.q, m, c, e.ok, e.okDelim);
      PutDelct(s.q, m, c, e.ok, e.okDelim);
      assert Next(s, m, e).q == q';
    }
  }

  lemma PutDelct(q: Lines, m: Mode, c: Byte, ok: bool, okDelim: bool)
    ensures Put(q, m, c, ok, okDelim).delct == (q.delct + if Ends(m, c) && okDelim then 1 else 0) % 256
  {
  }

  lemma ApartTail(s: seq<Byte>)
    requires Apart(s) && s != []
    ensures Apart(s[1..])
  {
    var t := s[1..];
    forall i | 0 <= i < |t| - 1 ensures t[i] != DELIM || t[i+1] != DELIM { assert t[i] == s[i+1]; }
  }

  /** Every step but that one keeps the count right, whatever the pool does. */
  lemma CountIffNoFlush(s: State, m: Mode, e: Event)
    requires Counted(s) && Enabled(s, e)
    ensures Counted(Next(s, m, e)) <==> !Miscounts(s, m, e)
  {
    match e
    case Type(_, _, _) => if !Miscounts(s, m, e) { TypeCounts(s, m, e); }
    case Take =>
      if s.q.raw != [] {
        ApartTail(s.q.raw);
        DelimsApart(s.q.raw);
      }
    case _ =>
  }

  /** What the test at the head of `canon` is for, and the sleep in it. */
  lemma CountTells(s: State)
    requires Counted(s) && !s.phase.AtDelim?
    ensures s.q.delct == 0 <==> DELIM !in s.q.raw
  {
    DelimsSome(s.q.raw);
  }

  // ----- a count that is lost

  /** One delimiter too few is counted. */
  ghost predicate Skewed(s: State) {
    && Apart(s.q.raw) && |s.q.raw| <= TTYHOG + 1
    && s.q.delct == (Delims(s.q.raw) + Owed(s.phase) + 255) % 256
  }

  /** One too few, once the delimiter that is gone is counted too. */
  ghost predicate Skewing(s: State) {
    && s.phase.AtDelim? && Apart(s.q.raw) && |s.q.raw| <= TTYHOG + 1
    && s.q.delct == Delims(s.q.raw)
  }

  lemma SkewingIsSkewed(s: State)
    requires Skewing(s)
    ensures Skewed(s)
  {
    DelimsApart(s.q.raw);
  }

  lemma MiscountSkews(s: State, m: Mode, e: Event)
    requires Counted(s) && Enabled(s, e) && Miscounts(s, m, e)
    ensures Skewed(Next(s, m, e))
  {
    SkewingIsSkewed(Next(s, m, e));
  }

  lemma SkewType(s: State, m: Mode, e: Event)
    requires Skewed(s) && e.Type? && Enabled(s, e) && !Flushes(s.q, m, e.ac)
    ensures Skewed(Next(s, m, e))
  {
    var c := Lowered(Seven(e.ac, m), m);
    SkewRoom(s, m, e.ac);
    SkewAdds(Delims(s.q.raw) + Owed(s.phase), if Ends(m, c) && e.okDelim then 1 else 0);
    hide Delims, Apart, Put, Seven, Lowered, Flushes;
    PutCounts(s.q, m, c, e.ok, e.okDelim);
    PutDelct(s.q, m, c, e.ok, e.okDelim);
    assert Next(s, m, e).q == Put(s.q, m, c, e.ok, e.okDelim) && Owed(Next(s, m, e).phase) == Owed(s.phase);
  }

  lemma SkewAdds(d: nat, w: nat)
    ensures ((d + 255) % 256 + w) % 256 == (d + w + 255) % 256
  {
  }

  lemma SkewRoom(s: State, m: Mode, ac: int)
    requires Skewed(s) && !Flushes(s.q, m, ac)
    ensures |s.q.raw| < TTYHOG
  {
  }

  /** Nothing but another flush puts the count right again, and one does. */
  lemma SkewStays(s: State, m: Mode, e: Event)
    requires Skewed(s) && Enabled(s, e)
    ensures Skewed(Next(s, m, e)) <==> !(e.Type? && Flushes(s.q, m, e.ac) && !s.phase.AtDelim?)
    ensures e.Type? && Flushes(s.q, m, e.ac) && !s.phase.AtDelim? ==> Counted(Next(s, m, e))
  {
    match e
    case Type(ac, _, _) => if !Flushes(s.q, m, ac) { SkewType(s, m, e); }
    case Take =>
      if s.q.raw != [] {
        ApartTail(s.q.raw);
      }
    case _ =>
  }

  /** With the count lost and nothing typed, a read ends at once as if at the end
      of the file; with one whole line typed, the reader sleeps. */
  lemma SkewMisleads(s: State, m: Mode)
    requires Skewed(s) && s.phase.Idle? && s.canq == []
    ensures s.q.raw == [] ==>
              var s3 := Next(Next(Next(s, m, Test(true)), m, Take), m, Done);
              s3.phase.Idle? && s3.canq == [] && s3.read == s.read
    ensures Delims(s.q.raw) == 1 ==> Next(s, m, Test(true)).phase.Asleep? && DELIM in s.q.raw
  {
    DelimsSome(s.q.raw);
  }

  // ----- what the reader is given

  function Rest(p: Phase): seq<Byte> {
    match p
    case AtDelim(line) => line
    case Giving(rest) => rest
    case _ => []
  }

  function Line(p: Phase): seq<Byte> { if p.Taking? then p.line else [] }

  /** What has been passed on and what is in hand is what the editor makes of the
      characters taken. */
  ghost predicate History(s: State, m: Mode) {
    && s.typed == s.taken + s.q.raw
    && s.given == s.read + s.canq
    && Fed(s.taken, m) == Editor(s.given + Rest(s.phase), Line(s.phase))
  }

  ghost predicate Told(s: State, m: Mode) {
    && Counted(s) && History(s, m)
    && (s.phase.Taking? ==> Delims(s.q.raw) > 0)
  }

  /** Nothing is flushed while a line is being taken, and there are blocks enough. */
  ghost predicate Quiet(s: State, m: Mode, e: Event) {
    && (e.Type? && Flushes(s.q, m, e.ac) ==> s.phase.Idle? || s.phase.Asleep? || s.phase.Woken?)
    && (e.Give? ==> e.ok)
  }

  lemma TypeTold(s: State, m: Mode, e: Event)
    requires Told(s, m) && e.Type? && Enabled(s, e) && Quiet(s, m, e)
    ensures Told(Next(s, m, e), m)
  {
    CountIffNoFlush(s, m, e);
    hide Counted;
    if !Flushes(s.q, m, e.ac) {
      TypedMore(s, m, e);
    }
  }

  lemma TypedMore(s: State, m: Mode, e: Event)
    requires Counted(s) && e.Type? && Enabled(s, e) && !Flushes(s.q, m, e.ac)
    ensures var s' := Next(s, m, e); s.q.raw <= s'.q.raw && Delims(s.q.raw) <= Delims(s'.q.raw)
  {
    PutCounts(s.q, m, Lowered(Seven(e.ac, m), m), e.ok, e.okDelim);
  }

  lemma TakeTold(s: State, m: Mode)
    requires Told(s, m) && s.phase.Taking?
    ensures s.q.raw != [] && Told(Next(s, m, Take), m)
  {
    CountIffNoFlush(s, m, Take);
    TakeHistory(s, m);
    hide Edit, Counted, Fed, History;
  }

  lemma TakeHistory(s: State, m: Mode)
    requires History(s, m) && s.phase.Taking? && s.q.raw != []
    ensures History(TakeStep(s, m), m)
  {
    hide Edit, Fed;
    var c := s.q.raw[0];
    FedOne(s.taken, c, m);
    OneOn(s.taken, s.q.raw);
    assert Fed(s.taken, m) == Editor(s.given, s.phase.line) by { assert s.given + [] == s.given; }
    FeedTakes(s.given, s.phase.line, c, m);
  }

  lemma OneOn(taken: seq<Byte>, raw: seq<Byte>)
    requires raw != []
    ensures taken + raw == taken + [raw[0]] + raw[1..]
  {
  }

  /** The editor and the loop of `canon` do the same with a character. */
  lemma FeedTakes(given: seq<Byte>, line: seq<Byte>, c: Byte, m: Mode)
    ensures var e, line' := Feed(Editor(given, line), c, m), Edit(line, c, m);
            if c == DELIM then e == Editor(given + line, [])
            else if |line'| >= LIMIT then e == Editor(given + line', [])
            else e == Editor(given + [], line')
  {
    hide Edit;
    assert given + [] == given;
  }

  /** Every quiet step keeps it. */
  lemma NextTold(s: State, m: Mode, e: Event)
    requires Told(s, m) && Enabled(s, e) && Quiet(s, m, e)
    ensures Told(Next(s, m, e), m)
  {
    match e
    case Type(_, _, _) => TypeTold(s, m, e);
    case Take => TakeTold(s, m);
    case Give(_) =>
      assert s.given + s.phase.rest == s.given + [s.phase.rest[0]] + s.phase.rest[1..];
      assert s.read + (s.canq + [s.phase.rest[0]]) == s.read + s.canq + [s.phase.rest[0]];
    case Read =>
      assert s.read + s.canq == s.read + [s.canq[0]] + s.canq[1..];
    case _ =>
      CountIffNoFlush(s, m, e);
  }

  /** A flush leaves something of the line that was killed to be passed on if and
      only if some of it was in hand. */
  lemma FlushLeaves(s: State, m: Mode, e: Event)
    requires e.Type? && Enabled(s, e) && Flushes(s.q, m, e.ac)
    ensures History(Next(s, m, e), m) <==> Rest(s.phase) == [] && Line(s.phase) == []
  {
  }

  // ----- every run

  ghost function Init(): State { State(Lines([], 0), [], Idle, [], [], [], []) }

  /** A run in which the count is never lost; a quiet one, if asked for. */
  ghost predicate Run(s: State, m: Mode, es: seq<Event>, s': State, quiet: bool)
    decreases |es|
  {
    if es == [] then s' == s
    else
      && Enabled(s, es[0]) && !Miscounts(s, m, es[0]) && (quiet ==> Quiet(s, m, es[0]))
      && Run(Next(s, m, es[0]), m, es[1..], s', quiet)
  }

  lemma {:induction false} RunCounts(s: State, m: Mode, es: seq<Event>, s': State, quiet: bool)
    requires Counted(s) && Run(s, m, es, s', quiet)
    ensures Counted(s')
    decreases |es|
  {
    if es != [] {
      CountIffNoFlush(s, m, es[0]);
      RunCounts(Next(s, m, es[0]), m, es[1..], s', quiet);
    }
  }

  lemma {:induction false} RunTold(s: State, m: Mode, es: seq<Event>, s': State)
    requires Told(s, m) && Run(s, m, es, s', true)
    ensures Told(s', m)
    decreases |es|
  {
    if es != [] {
      NextTold(s, m, es[0]);
      RunTold(Next(s, m, es[0]), m, es[1..], s');
    }
  }

  /** In every run in which no flush falls between taking a delimiter and counting
      it: a reader sleeps only when there is no whole line, and starts taking
      one only when there is. */
  lemma NeverSleepsOnALine(m: Mode, es: seq<Event>, s: State, quiet: bool)
    requires Run(Init(), m, es, s, quiet)
    ensures s.phase.Asleep? ==> DELIM !in s.q.raw
    ensures Enabled(s, Test(true)) ==> (Next(s, m, Test(true)).phase.Taking? <==> DELIM in s.q.raw)
  {
    RunCounts(Init(), m, es, s, quiet);
    if !s.phase.AtDelim? { CountTells(s); }
  }

  /** In every quiet run: what is read, with what is still to be passed on, is what
      the editor makes of the characters taken, and a beginning of what it makes of
      all that was typed; and a line being taken is never found to have no end. */
  lemma ReaderSeesTheEdited(m: Mode, es: seq<Event>, s: State)
    requires Run(Init(), m, es, s, true)
    ensures s.read + s.canq + Rest(s.phase) == Fed(s.taken, m).out && s.typed == s.taken + s.q.raw
    ensures s.read <= Fed(s.typed, m).out
    ensures s.phase.Idle? && s.canq == [] && s.q.raw == [] ==> s.read == Fed(s.typed, m).out
    ensures s.phase.Taking? ==> DELIM in s.q.raw
  {
    RunTold(Init(), m, es, s);
    DelimsSome(s.q.raw);
    FedGrows(s.taken, s.q.raw, m);
    assert s.typed == s.taken + s.q.raw;
    assert s.read <= s.read + s.canq + Rest(s.phase);
    if s.q.raw == [] { assert s.typed == s.taken; }
  }

  /** It can happen: an EOT is typed, a read begins, and the interrupt character
      comes just after the delimiter is taken. */
  lemma MiscountHappens(m: Mode) returns (es: seq<Event>, s: State, e: Event)
    requires !m.raw && m.erase == 35 && m.kill == 64
    ensures Run(Init(), m, es, s, true) && Enabled(s, e) && Miscounts(s, m, e)
  {
    var s1 := Next(Init(), m, Type(4, true, true));
    var s2 := Next(s1, m, Test(true));
    var s3 := Next(s2, m, Take);
    s := Next(s3, m, Take);
    assert s1.q == Lines([4, 255], 1) && s3.phase == Taking([]) && s.phase == AtDelim([]);
    assert Run(s3, m, [Take], s, true);
    assert [Take, Take][1..] == [Take] && Run(s2, m, [Take, Take], s, true);
    assert [Test(true), Take, Take][1..] == [Take, Take] && Run(s1, m, [Test(true), Take, Take], s, true);
    es, e := [Type(4, true, true), Test(true), Take, Take], Type(127, true, true);
    assert es[1..] == [Test(true), Take, Take];
  }
}
