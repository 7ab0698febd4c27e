/** Three terminals: what keys, output and switches do to tapes and input lines. */
module Terminals {
  import opened Machine
  import opened Tapes

  /** Each terminal's tape and input line, the displayed terminal, and which are in use. */
  datatype Terms = Terms(tapes: seq<Tape>, lines: seq<seq<byte>>, entered: seq<bool>, active: seq<bool>, shown: int)

  datatype Input =
    | Report(origin: int, text: seq<byte>) // a kernel message for terminal `origin`, printed on the display
    | Output(terminal: int, bytes: seq<byte>)
    | Key(c: byte)
    | Wipe                                // control-L
    | Enter
    | Backspace
    | Tab
    | Show(terminal: int, free: bool)     // Alt and a function key; `free` when a pid is available
    | Deliver(reader: int, nbytes: nat)   // terminal_read, once enter has been pressed

  predicate Sized(s: Terms) {
    |s.tapes| == |s.lines| == |s.entered| == |s.active| == 3 && 0 <= s.shown < 3 && s.active[s.shown]
  }

  /** What the source demands of an event's surroundings. */
  predicate Allowed(s: Terms, e: Input)
    requires Sized(s)
  {
    match e
    case Report(t, _) => 0 <= t < 3
    case Output(t, _) => 0 <= t < 3 && s.active[t]
    case Enter => |s.lines[s.shown]| <= 127
    case Show(t, _) => 0 <= t < 3
    case Deliver(r, _) => 0 <= r < 3 && s.entered[r]
    case _ => true
  }

  function NonNul(s: seq<byte>): seq<byte> {
    if s == [] then [] else (if s[0] != NUL then [s[0]] else []) + NonNul(s[1..])
  }

  /** Exactly the NUL bytes are dropped. */
  lemma {:induction false} NonNulIs(a: seq<byte>, b: seq<byte>)
    requires 0 !in a
    ensures NonNul(a + b) == a + NonNul(b) && NonNul([0] + b) == NonNul(b)
    decreases |a|
  {
    assert ([0] + b)[1..] == b;
    if a == [] {
      assert a + b == b;
    } else {
      assert (a + b)[1..] == a[1..] + b;
      NonNulIs(a[1..], b);
    }
  }

  function WithTape(s: Terms, t: int, tape: Tape): Terms
    requires Sized(s) && 0 <= t < 3
  {
    s.(tapes := s.tapes[t := tape])
  }

  function WithLine(s: Terms, line: seq<byte>): Terms
    requires Sized(s)
  {
    s.(lines := s.lines[s.shown := line])
  }

  function Apply(s: Terms, e: Input): (n: Terms)
    requires Sized(s) && Allowed(s, e)
    ensures Sized(n)
  {
    var tape, line := s.tapes[s.shown], s.lines[s.shown];
    match e
    case Report(_, text) => WithTape(s, s.shown, TypedAll(tape, text))
    case Output(t, bytes) => WithTape(s, t, TypedAll(s.tapes[t], NonNul(bytes)))
    case Key(c) => if |line| < 127 then WithLine(WithTape(s, s.shown, Typed(tape, c)), line + [c]) else s
    case Wipe => WithTape(s, s.shown, CLEARED)
    case Enter =>
      WithLine(WithTape(s, s.shown, Typed(tape, NEWLINE)), line + [NEWLINE]).(entered := s.entered[s.shown := true])
    case Backspace => if line == [] then s else WithLine(WithTape(s, s.shown, Erased(tape)), line[..|line| - 1])
    case Tab => WithTape(s, s.shown, TypedAll(tape, [SPACE, SPACE, SPACE, SPACE]))
    case Show(t, free) =>
      if t == s.shown || (!free && !s.active[t]) then s
      else if s.active[t] then s.(shown := t)
      else WithTape(s.(shown := t, active := s.active[t := true]), t, CLEARED)
    case Deliver(r, _) => WithLine(s, []).(entered := s.entered[r := false])
  }

  /** The bytes terminal_read hands over: always from the displayed terminal's line. */
  function Delivered(s: Terms, nbytes: nat): seq<byte>
    requires Sized(s)
  {
    s.lines[s.shown][..Min(nbytes, |s.lines[s.shown]|)]
  }

  // ----- independence

  /** What one event does to one terminal. */
  datatype Act = Typing(c: byte) | Wiping | Keying(c: byte) | Entering | Rubbing | Taking

  function Typings(s: seq<byte>): seq<Act> {
    if s == [] then [] else [Typing(s[0])] + Typings(s[1..])
  }

  /**
   * What event e, made on or for terminal t, asks of it: a read belongs to the terminal of the process
   * that reads, a message to the terminal of the process whose call failed.
   */
  function ActsOn(s: Terms, e: Input, t: int): seq<Act>
    requires Sized(s) && Allowed(s, e) && 0 <= t < 3
  {
    match e
    case Deliver(r, _) => if r == t then [Taking] else []
    case Report(o, text) => if o == t then Typings(text) else []
    case Output(u, bytes) => if u == t then Typings(NonNul(bytes)) else []
    case Show(u, free) => if u == t && t != s.shown && free && !s.active[t] then [Wiping] else []
    case _ =>
      if t != s.shown then []
      else
        match e
        case Key(c) => [Keying(c)]
        case Wipe => [Wiping]
        case Enter => [Entering]
        case Backspace => [Rubbing]
        case _ => Typings([SPACE, SPACE, SPACE, SPACE])
  }

  /** One terminal on its own. */
  function Acted(own: (Tape, seq<byte>), a: Act): (Tape, seq<byte>) {
    var (tape, line) := own;
    match a
    case Typing(c) => (Typed(tape, c), line)
    case Wiping => (CLEARED, line)
    case Keying(c) => if |line| < 127 then (Typed(tape, c), line + [c]) else own
    case Entering => (Typed(tape, NEWLINE), line + [NEWLINE])
    case Rubbing => if line == [] then own else (Erased(tape), line[..|line| - 1])
    case Taking => (tape, [])
  }

  function ActedAll(own: (Tape, seq<byte>), acts: seq<Act>): (Tape, seq<byte>)
    decreases |acts|
  {
    if acts == [] then own else ActedAll(Acted(own, acts[0]), acts[1..])
  }

  lemma {:induction false} TypingsType(tape: Tape, line: seq<byte>, s: seq<byte>)
    ensures ActedAll((tape, line), Typings(s)) == (TypedAll(tape, s), line)
    decreases |s|
  {
    if s != [] {
      assert ([Typing(s[0])] + Typings(s[1..]))[1..] == Typings(s[1..]);
      TypingsType(Typed(tape, s[0]), line, s[1..]);
    }
  }

  lemma {:induction false} ActedAllAppend(own: (Tape, seq<byte>), a: seq<Act>, b: seq<Act>)
    ensures ActedAll(own, a + b) == ActedAll(ActedAll(own, a), b)
    decreases |a|
  {
    if a == [] {
      assert a + b == b;
    } else {
      assert (a + b)[1..] == a[1..] + b;
      ActedAllAppend(Acted(own, a[0]), a[1..], b);
    }
  }

  /** The event changes terminal t's tape and line exactly as its own acts do. */
  ghost predicate Local(s: Terms, e: Input, t: int)
    requires Sized(s) && Allowed(s, e) && 0 <= t < 3
  {
    (Apply(s, e).tapes[t], Apply(s, e).lines[t]) == ActedAll((s.tapes[t], s.lines[t]), ActsOn(s, e, t))
  }

  /** A read or a message is served at home: its process's terminal is displayed, or there is nothing to confuse. */
  predicate AtHome(s: Terms, e: Input)
    requires Sized(s) && Allowed(s, e)
  {
    match e
    case Deliver(r, _) => r == s.shown || (s.lines[s.shown] == [] && s.lines[r] == [])
    case Report(o, text) => o == s.shown || text == []
    case _ => true
  }

  lemma StepIsLocal(s: Terms, e: Input, t: int)
    requires Sized(s) && Allowed(s, e) && 0 <= t < 3 && AtHome(s, e)
    ensures Local(s, e, t)
  {
    match e
    case Output(u, bytes) => TypingsType(s.tapes[t], s.lines[t], NonNul(bytes));
    case Report(_, text) => TypingsType(s.tapes[t], s.lines[t], text);
    case Tab => TypingsType(s.tapes[t], s.lines[t], [SPACE, SPACE, SPACE, SPACE]);
    case _ =>
  }

  lemma {:induction false} TypedAllGrows(t: Tape, s: seq<byte>)
    ensures |TypedAll(t, s).text| >= |t.text| + |s|
    decreases |s|
  {
    if s != [] { TypedAllGrows(Typed(t, s[0]), s[1..]); }
  }

  lemma AwayIsNotLocal(s: Terms, e: Input) returns (t: int)
    requires Sized(s) && Allowed(s, e) && !AtHome(s, e)
    ensures 0 <= t < 3 && !Local(s, e, t)
  {
    t := s.shown;
    if e.Report? {
      TypedAllGrows(s.tapes[t], e.text);
    } else {
      var own := (s.tapes[e.reader], s.lines[e.reader]);
      assert ActedAll(own, [Taking]) == ActedAll(Acted(own, Taking), []);
      if s.lines[s.shown] == [] { t := e.reader; }
    }
  }

  /** Exactly the reads and messages that are not served at home reach into another terminal. */
  lemma StepIsLocalIff(s: Terms, e: Input)
    requires Sized(s) && Allowed(s, e)
    ensures (forall t | 0 <= t < 3 :: Local(s, e, t)) <==> AtHome(s, e)
  {
    if AtHome(s, e) {
      forall t | 0 <= t < 3 ensures Local(s, e, t) { StepIsLocal(s, e, t); }
    } else {
      var t := AwayIsNotLocal(s, e);
    }
  }

  /** terminal_read for one terminal's process hands over the beginning of that terminal's line and empties that line only. */
  ghost predicate ReadsOwnLine(s: Terms, reader: int, nbytes: nat)
    requires Sized(s) && 0 <= reader < 3 && s.entered[reader]
  {
    && Delivered(s, nbytes) == s.lines[reader][..Min(nbytes, |s.lines[reader]|)]
    && Apply(s, Deliver(reader, nbytes)).lines == s.lines[reader := []]
  }

  lemma ReadsOwnLineIff(s: Terms, reader: int, nbytes: nat)
    requires Sized(s) && 0 <= reader < 3 && s.entered[reader]
    ensures ReadsOwnLine(s, reader, nbytes) <==> AtHome(s, Deliver(reader, nbytes))
  {
    var after, own := s.lines[s.shown := []], s.lines[reader := []];
    if s.lines[s.shown] == [] && s.lines[reader] == [] { assert after == s.lines == own; }
    else if reader != s.shown { assert after[s.shown] != own[s.shown] || after[reader] != own[reader]; }
  }

  // ----- whole histories

  ghost predicate AppliesAt(cs: seq<Terms>, es: seq<Input>, i: nat) {
    i < |es| && i + 1 < |cs| && (Sized(cs[i]) ==> Allowed(cs[i], es[i]) && cs[i + 1] == Apply(cs[i], es[i]))
  }

  ghost predicate IsHistory(cs: seq<Terms>, es: seq<Input>) {
    |cs| == |es| + 1 && Sized(cs[0]) && forall i: nat | i < |es| :: AppliesAt(cs, es, i)
  }

  lemma {:induction false} HistoryAt(cs: seq<Terms>, es: seq<Input>, n: nat)
    requires IsHistory(cs, es) && n <= |es|
    ensures Sized(cs[n]) && (n < |es| ==> Allowed(cs[n], es[n]) && cs[n + 1] == Apply(cs[n], es[n]))
  {
    if n < |es| { assert AppliesAt(cs, es, n); }
    if n > 0 {
      HistoryAt(cs, es, n - 1);
      assert AppliesAt(cs, es, n - 1);
    }
  }

  /** What the first n events ask of terminal t, in order. */
  ghost function Acts(cs: seq<Terms>, es: seq<Input>, t: int, n: nat): seq<Act>
    requires IsHistory(cs, es) && n <= |es| && 0 <= t < 3
  {
    if n == 0 then [] else
      HistoryAt(cs, es, n - 1);
      Acts(cs, es, t, n - 1) + ActsOn(cs[n - 1], es[n - 1], t)
  }

  /** After n events terminal t's screen and line are what its own acts alone make of them. */
  ghost predicate Independent(cs: seq<Terms>, es: seq<Input>, t: int, n: nat)
    requires IsHistory(cs, es) && n <= |es| && 0 <= t < 3
  {
    HistoryAt(cs, es, n);
    (cs[n].tapes[t], cs[n].lines[t]) == ActedAll((cs[0].tapes[t], cs[0].lines[t]), Acts(cs, es, t, n))
  }

  ghost predicate HomeAt(cs: seq<Terms>, es: seq<Input>, n: nat)
    requires IsHistory(cs, es) && n < |es|
  {
    HistoryAt(cs, es, n);
    AtHome(cs[n], es[n])
  }

  lemma IndependentStep(cs: seq<Terms>, es: seq<Input>, t: int, n: nat)
    requires IsHistory(cs, es) && n < |es| && 0 <= t < 3 && Independent(cs, es, t, n)
    ensures Sized(cs[n]) && Allowed(cs[n], es[n]) && (Independent(cs, es, t, n + 1) <==> Local(cs[n], es[n], t))
  {
    HistoryAt(cs, es, n);
    HistoryAt(cs, es, n + 1);
    ActedAllAppend((cs[0].tapes[t], cs[0].lines[t]), Acts(cs, es, t, n), ActsOn(cs[n], es[n], t));
  }

  lemma StaysIndependent(cs: seq<Terms>, es: seq<Input>, t: int, n: nat)
    requires IsHistory(cs, es) && n < |es| && 0 <= t < 3 && Independent(cs, es, t, n) && HomeAt(cs, es, n)
    ensures Independent(cs, es, t, n + 1)
  {
    IndependentStep(cs, es, t, n);
    StepIsLocal(cs[n], es[n], t);
  }

  /** When every read and message is served at home, each terminal's screen and line are those of its own events alone. */
  lemma {:induction false} TerminalsAreIndependent(cs: seq<Terms>, es: seq<Input>, t: int, n: nat)
    requires IsHistory(cs, es) && n <= |es| && 0 <= t < 3 && forall i: nat | i < n :: HomeAt(cs, es, i)
    ensures Independent(cs, es, t, n)
    decreases n
  {
    if n > 0 {
      TerminalsAreIndependent(cs, es, t, n - 1);
      assert HomeAt(cs, es, n - 1);
      StaysIndependent(cs, es, t, n - 1);
    }
  }

  /** Terminals are independent throughout a run exactly when every read and message in it is served at home. */
  lemma TerminalsAreIndependentIff(cs: seq<Terms>, es: seq<Input>)
    requires IsHistory(cs, es)
    ensures (forall n: nat, t | n <= |es| && 0 <= t < 3 :: Independent(cs, es, t, n))
      <==> (forall n: nat | n < |es| :: HomeAt(cs, es, n))
  {
    if forall n: nat | n < |es| :: HomeAt(cs, es, n) {
      forall n: nat, t | n <= |es| && 0 <= t < 3 ensures Independent(cs, es, t, n) { TerminalsAreIndependent(cs, es, t, n); }
    } else {
      var n: nat :| n < |es| && !HomeAt(cs, es, n);
      HistoryAt(cs, es, n);
      StepIsLocalIff(cs[n], es[n]);
      var t :| 0 <= t < 3 && !Local(cs[n], es[n], t);
      if Independent(cs, es, t, n) { IndependentStep(cs, es, t, n); }
    }
  }

  /** The terminals as the kernel starts: terminal 0 displayed and in use. */
  const BOOTED := Terms([CLEARED, CLEARED, CLEARED], [[], [], []], [false, false, false], [true, false, false], 0)

  // ----- editing

  function Keys(w: seq<byte>): seq<Act> {
    if w == [] then [] else [Keying(w[0])] + Keys(w[1..])
  }

  function Rubs(n: nat): seq<Act> {
    if n == 0 then [] else [Rubbing] + Rubs(n - 1)
  }

  /** How many of n keys a line of this length takes: it is full at 127. */
  function Taken(length: nat, n: nat): (m: nat)
    ensures m <= n
  {
    if length + n <= 127 then n else if length <= 127 then 127 - length else 0
  }

  /** Keys are echoed and kept until the line is full; the rest are neither. */
  lemma {:induction false} KeysType(tape: Tape, line: seq<byte>, w: seq<byte>)
    ensures var kept := w[..Taken(|line|, |w|)];
      ActedAll((tape, line), Keys(w)) == (TypedAll(tape, kept), line + kept)
    decreases |w|
  {
    var kept := w[..Taken(|line|, |w|)];
    if w == [] {
      assert line + kept == line;
    } else {
      assert ([Keying(w[0])] + Keys(w[1..]))[1..] == Keys(w[1..]);
      if |line| < 127 {
        KeysType(Typed(tape, w[0]), line + [w[0]], w[1..]);
        assert kept[1..] == w[1..][..Taken(|line| + 1, |w| - 1)];
        assert line + kept == (line + [w[0]]) + kept[1..];
      } else {
        KeysType(tape, line, w[1..]);
        assert kept == [] && w[1..][..0] == [];
      }
    }
  }

  /** Backspaces rub out the end of the line, on screen too; on an empty line they do nothing. */
  lemma {:induction false} RubsErase(tape: Tape, line: seq<byte>, n: nat)
    ensures var m := if n < |line| then n else |line|;
      ActedAll((tape, line), Rubs(n)) == (ErasedTimes(tape, m), line[..|line| - m])
    decreases n
  {
    if n == 0 {
      assert line[..|line|] == line;
    } else {
      assert ([Rubbing] + Rubs(n - 1))[1..] == Rubs(n - 1);
      if line == [] {
        RubsErase(tape, line, n - 1);
      } else {
        var m := if n < |line| then n else |line|;
        RubsErase(Erased(tape), line[..|line| - 1], n - 1);
        assert line[..|line| - 1][..|line| - m] == line[..|line| - m];
      }
    }
  }

  /** Typing a word and rubbing it out leaves the line as it was and the text on screen as it was. */
  lemma RubbingUndoesKeys(tape: Tape, line: seq<byte>, w: seq<byte>)
    requires Fits(tape) && |line| + |w| <= 127 && forall i | 0 <= i < |w| :: !IsBreak(w[i])
    ensures var (tape', line') := ActedAll((tape, line), Keys(w) + Rubs(|w|));
      tape'.text == tape.text && line' == line
  {
    ActedAllAppend((tape, line), Keys(w), Rubs(|w|));
    KeysType(tape, line, w);
    assert w[..|w|] == w;
    RubsErase(TypedAll(tape, w), line + w, |w|);
    ErasingUndoesTyping(tape, w);
    assert (line + w)[..|line + w| - |w|] == line;
  }
}
