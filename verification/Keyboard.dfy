/**
 * The keyboard's line buffers and the events that reach them, over the console. The three lines share one
 * array of 384 bytes, the displayed one has its index in a variable of its own, and `Abs` is the state of
 * the three terminals that the events speak of; a terminal switch saves the index and restores another.
 */
module KeyboardMachine {
  import opened Machine
  import opened Tapes
  import opened Terminals
  import opened ConsoleMachine

  class Keyboard {
    const console: Console
    const terminalBuffers: array<byte>
    const bufferIndices: array<int>
    const enterState: array<bool>
    /** Offset of `terminal_buffer` inside `terminal_buffers`. */
    var terminalBuffer: int
    var bufferIndex: int

    constructor (console: Console)
      requires console.Valid() && console.currentTerminal == 0 && console.active[..] == [true, false, false]
      ensures this.console == console && Valid() && fresh(terminalBuffers) && fresh(bufferIndices) && fresh(enterState)
      ensures Lines() == [[], [], []] && enterState[..] == [false, false, false]
    {
      this.console := console;
      terminalBuffers := new byte[384](_ => 0);
      bufferIndices := new int[3](_ => 0);
      enterState := new bool[3](_ => false);
      terminalBuffer, bufferIndex := 0, 0;
    }

    function LineLength(t: int): int
      requires bufferIndices.Length == 3 && 0 <= t < 3
      reads this, console`currentTerminal, bufferIndices
    {
      if t == console.currentTerminal then bufferIndex else bufferIndices[t]
    }

    ghost predicate LinesOk()
      reads this, console`currentTerminal, bufferIndices
    {
      && terminalBuffers.Length == 384 && bufferIndices.Length == 3 && 0 <= console.currentTerminal < 3
      && terminalBuffer == 128 * console.currentTerminal && 0 <= bufferIndex <= 128
      && forall t | 0 <= t < 3 :: 0 <= bufferIndices[t] <= 128
    }

    ghost predicate Valid()
      reads this, console, console.video, console.pageTable, console.termX, console.termY, console.active,
            bufferIndices, enterState
    {
      && console.Valid() && LinesOk() && enterState.Length == 3
      && terminalBuffers != console.video && enterState != console.active
      && bufferIndices != console.termX && bufferIndices != console.termY
    }

    /** Terminal t's input line. */
    function Line(t: int): seq<byte>
      requires LinesOk() && 0 <= t < 3
      reads this, console`currentTerminal, terminalBuffers, bufferIndices
    {
      terminalBuffers[128 * t..128 * t + LineLength(t)]
    }

    function Lines(): (r: seq<seq<byte>>)
      requires LinesOk()
      reads this, console`currentTerminal, terminalBuffers, bufferIndices
      ensures |r| == 3 && forall t | 0 <= t < 3 :: r[t] == Line(t)
    {
      [Line(0), Line(1), Line(2)]
    }

    ghost function Abs(): Terms
      requires LinesOk()
      reads this, console, console.active, terminalBuffers, bufferIndices, enterState
    {
      Terms(console.tapes, Lines(), enterState[..], console.active[..], console.currentTerminal)
    }

    // ----- the displayed line

    /** terminal_buffer[buffer_index] = c; buffer_index++. */
    method Push(c: byte)
      requires LinesOk() && bufferIndex <= 127
      modifies this`bufferIndex, terminalBuffers
      ensures LinesOk() && Lines() == old(Lines())[console.currentTerminal := old(Line(console.currentTerminal)) + [c]]
    {
      terminalBuffers[terminalBuffer + bufferIndex] := c;
      bufferIndex := bufferIndex + 1;
      forall t | 0 <= t < 3 ensures Line(t) == if t == console.currentTerminal then old(Line(t)) + [c] else old(Line(t)) {}
    }

    /** The same store, seen from all three terminals. */
    method PushLine(c: byte)
      requires Valid() && bufferIndex <= 127
      modifies this`bufferIndex, terminalBuffers
      ensures Valid() && Abs() == WithLine(old(Abs()), old(Line(console.currentTerminal)) + [c])
    {
      Push(c);
    }

    /** tputc to one terminal. */
    method Echo(c: byte, t: int)
      requires Valid() && 0 <= t < 3 && console.active[t]
      modifies console`tlb, console`tapes, console`screenX, console`screenY, console.video, console.termX, console.termY
      ensures Valid() && Abs() == WithTape(old(Abs()), t, Typed(old(console.tapes[t]), c))
    {
      console.TPutc(c, t);
    }

    /** A character echoed and appended to the displayed line. */
    method EchoAndPush(c: byte)
      requires Valid() && bufferIndex <= 127
      modifies this`bufferIndex, terminalBuffers, console`tlb, console`tapes, console`screenX, console`screenY,
               console.video, console.termX, console.termY
      ensures Valid() && var s, t := old(Abs()), console.currentTerminal;
        Abs() == WithLine(WithTape(s, t, Typed(s.tapes[t], c)), s.lines[t] + [c])
    {
      Echo(c, console.currentTerminal);
      PushLine(c);
    }

    /** A printable key; the 128th place is kept for enter. */
    method KeyPress(c: byte)
      requires Valid()
      modifies this`bufferIndex, terminalBuffers, console`tlb, console`tapes, console`screenX, console`screenY,
               console.video, console.termX, console.termY
      ensures Valid() && Abs() == Apply(old(Abs()), Key(c))
    {
      if bufferIndex < 127 {
        EchoAndPush(c);
      }
    }

    /** Enter; with more than 127 bytes waiting the store would land in the next terminal's buffer. */
    method EnterPress()
      requires Valid() && bufferIndex <= 127
      modifies this`bufferIndex, terminalBuffers, enterState, console`tlb, console`tapes, console`screenX, console`screenY,
               console.video, console.termX, console.termY
      ensures Valid() && Abs() == Apply(old(Abs()), Enter)
    {
      EchoAndPush(NEWLINE);
      SetEntered(console.currentTerminal, true);
    }

    method SetEntered(t: int, value: bool)
      requires Valid() && 0 <= t < 3
      modifies enterState
      ensures Valid() && Abs() == old(Abs()).(entered := old(Abs()).entered[t := value])
    {
      enterState[t] := value;
    }

    /** keyboard_backspace. */
    method BackspacePress()
      requires Valid()
      modifies this`bufferIndex, terminalBuffers, console`tlb, console`tapes, console`screenX, console`screenY,
               console.video, console.termX, console.termY
      ensures Valid() && Abs() == Apply(old(Abs()), Backspace)
    {
      if bufferIndex == 0 { return; }
      PopLine();
      EraseEcho();
    }

    method PopLine()
      requires Valid() && bufferIndex > 0
      modifies this`bufferIndex, terminalBuffers
      ensures Valid() && |old(Line(console.currentTerminal))| > 0
      ensures var line := old(Line(console.currentTerminal)); Abs() == WithLine(old(Abs()), line[..|line| - 1])
    {
      Pop();
    }

    method EraseEcho()
      requires Valid()
      modifies console`tlb, console`tapes, console`screenX, console`screenY, console.video, console.termX, console.termY
      ensures Valid()
      ensures Abs() == WithTape(old(Abs()), console.currentTerminal, Erased(old(console.tapes[console.currentTerminal])))
    {
      console.TerminalBackspace();
    }

    /** terminal_buffer[--buffer_index] = 0. */
    method Pop()
      requires LinesOk() && bufferIndex > 0
      modifies this`bufferIndex, terminalBuffers
      ensures LinesOk() && var t := console.currentTerminal;
        |old(Line(t))| > 0 && Lines() == old(Lines())[t := old(Line(t))[..|old(Line(t))| - 1]]
    {
      ghost var c, was, at, n := console.currentTerminal, terminalBuffers[..], terminalBuffer, bufferIndex - 1;
      bufferIndex := bufferIndex - 1;
      terminalBuffers[terminalBuffer + bufferIndex] := NUL;
      CutShorter(was, terminalBuffers[..], at, n);
      forall t | 0 <= t < 3 && t != c ensures Line(t) == old(Line(t)) {
        SliceElsewhere(was, terminalBuffers[..], 128 * t, LineLength(t), at + n);
      }
    }

    static lemma SameSlice(was: seq<byte>, now: seq<byte>, at: nat, n: nat)
      requires at + n <= |was| == |now| && forall k | at <= k < at + n :: now[k] == was[k]
      ensures now[at..at + n] == was[at..at + n]
    {
    }

    static lemma CutShorter(was: seq<byte>, now: seq<byte>, at: nat, n: nat)
      requires at + n < |was| && now == was[at + n := NUL]
      ensures now[at..at + n] == was[at..at + n + 1][..n]
    {
    }

    static lemma SliceElsewhere(was: seq<byte>, now: seq<byte>, at: nat, n: nat, k: nat)
      requires at + n <= |was| && k < |was| && now == was[k := NUL] && !(at <= k < at + n)
      ensures now[at..at + n] == was[at..at + n]
    {
    }

    /** Control-L clears the screen and keeps the line. */
    method ControlL()
      requires Valid()
      modifies console`tlb, console`tapes, console`screenX, console`screenY, console.video, console.termX, console.termY
      ensures Valid() && Abs() == Apply(old(Abs()), Wipe)
    {
      console.Clear();
    }

    /** tputs of a string to terminal t. */
    method TPuts(s: seq<byte>, t: int)
      requires Valid() && 0 <= t < 3 && console.active[t]
      modifies console`tlb, console`tapes, console`screenX, console`screenY, console.video, console.termX, console.termY
      ensures Valid() && Abs() == WithTape(old(Abs()), t, TypedAll(old(console.tapes[t]), s))
    {
      var i := 0;
      ghost var was := console.tapes;
      while i < |s|
        invariant 0 <= i <= |s| && Valid() && |was| == 3 && |console.tapes| == 3
        invariant Abs() == WithTape(old(Abs()), t, console.tapes[t])
        invariant TypedAll(was[t], s) == TypedAll(console.tapes[t], s[i..])
      {
        assert s[i..][0] == s[i] && s[i..][1..] == s[i + 1..];
        Echo(s[i], t);
        i := i + 1;
      }
    }

    /** putc on the displayed terminal. */
    method Print(c: byte)
      requires Valid()
      modifies console`tlb, console`tapes, console`screenX, console`screenY, console.video, console.termX, console.termY
      ensures Valid() && var t := console.currentTerminal;
        Abs() == WithTape(old(Abs()), t, Typed(old(console.tapes[t]), c))
    {
      console.Putc(c);
    }

    /** puts of a kernel message, whichever terminal's process it is about. */
    method Puts(text: seq<byte>, ghost origin: int)
      requires Valid() && 0 <= origin < 3
      modifies console`tlb, console`tapes, console`screenX, console`screenY, console.video, console.termX, console.termY
      ensures Valid() && Abs() == Apply(old(Abs()), Report(origin, text))
    {
      var i := 0;
      ghost var was, t := console.tapes, console.currentTerminal;
      while i < |text|
        invariant 0 <= i <= |text| && Valid() && |was| == 3 && |console.tapes| == 3
        invariant Abs() == WithTape(old(Abs()), t, console.tapes[t])
        invariant TypedAll(was[t], text) == TypedAll(console.tapes[t], text[i..])
      {
        assert text[i..][0] == text[i] && text[i..][1..] == text[i + 1..];
        Print(text[i]);
        i := i + 1;
      }
    }

    method TabPress()
      requires Valid()
      modifies console`tlb, console`tapes, console`screenX, console`screenY, console.video, console.termX, console.termY
      ensures Valid() && Abs() == Apply(old(Abs()), Tab)
    {
      TPuts([SPACE, SPACE, SPACE, SPACE], console.currentTerminal);
    }

    static lemma WriteStep(tape: Tape, bytes: seq<byte>, i: nat)
      requires i < |bytes|
      ensures var now, later := NonNul(bytes[i..]), NonNul(bytes[i + 1..]);
        TypedAll(tape, now) == (if bytes[i] == NUL then TypedAll(tape, later) else TypedAll(Typed(tape, bytes[i]), later))
        && |now| == |later| + (if bytes[i] == NUL then 0 else 1)
    {
      var later := NonNul(bytes[i + 1..]);
      assert bytes[i..][1..] == bytes[i + 1..];
      assert [] + later == later;
      assert ([bytes[i]] + later)[1..] == later;
    }

    /** terminal_write: NUL bytes are neither shown nor counted; descriptors other than 1 are refused. */
    method TerminalWrite(fd: int, bytes: seq<byte>, t: int) returns (r: int)
      requires Valid() && 0 <= t < 3 && console.active[t]
      modifies console`tlb, console`tapes, console`screenX, console`screenY, console.video, console.termX, console.termY
      ensures Valid()
      ensures if fd != 1 then r == -1 && Abs() == old(Abs())
              else Abs() == Apply(old(Abs()), Output(t, bytes)) && r == |NonNul(bytes)|
    {
      if fd != 1 { return -1; }
      r := WriteLoop(bytes, t);
    }

    method WriteByte(c: byte, t: int) returns (n: nat)
      requires Valid() && 0 <= t < 3 && console.active[t]
      modifies console`tlb, console`tapes, console`screenX, console`screenY, console.video, console.termX, console.termY
      ensures Valid() && n == if c == NUL then 0 else 1
      ensures var tape := old(console.tapes[t]); Abs() == WithTape(old(Abs()), t, if c == NUL then tape else Typed(tape, c))
    {
      if c == NUL { return 0; }
      Echo(c, t);
      return 1;
    }

    method WriteLoop(bytes: seq<byte>, t: int) returns (written: nat)
      requires Valid() && 0 <= t < 3 && console.active[t]
      modifies console`tlb, console`tapes, console`screenX, console`screenY, console.video, console.termX, console.termY
      ensures Valid() && Abs() == Apply(old(Abs()), Output(t, bytes)) && written == |NonNul(bytes)|
    {
      var i := 0;
      written := 0;
      ghost var was := console.tapes;
      while i < |bytes|
        invariant 0 <= i <= |bytes| && Valid() && |was| == 3 && |console.tapes| == 3
        invariant Abs() == WithTape(old(Abs()), t, console.tapes[t])
        invariant TypedAll(was[t], NonNul(bytes)) == TypedAll(console.tapes[t], NonNul(bytes[i..]))
        invariant written + |NonNul(bytes[i..])| == |NonNul(bytes)|
      {
        WriteStep(console.tapes[t], bytes, i);
        var n := WriteByte(bytes[i], t);
        written := written + n;
        i := i + 1;
      }
    }

    // ----- reading a line

    /** clear_terminal_buffer. */
    method ClearTerminalBuffer()
      requires LinesOk()
      modifies this`bufferIndex, terminalBuffers
      ensures LinesOk() && Lines() == old(Lines())[console.currentTerminal := []]
    {
      var i := 0;
      while i < 128
        invariant 0 <= i <= 128
        invariant forall k | 0 <= k < 384 && !(terminalBuffer <= k < terminalBuffer + 128) :: terminalBuffers[k] == old(terminalBuffers[k])
      {
        terminalBuffers[terminalBuffer + i] := NUL;
        i := i + 1;
      }
      ghost var c := console.currentTerminal;
      bufferIndex := 0;
      forall t | 0 <= t < 3 && t != c ensures Line(t) == old(Line(t)) {
        SameSlice(old(terminalBuffers[..]), terminalBuffers[..], 128 * t, LineLength(t));
      }
      assert Line(c) == [];
    }

    /** terminal_read; when descriptor and size are good, from the moment the reader's enter flag is set. */
    method TerminalRead(reader: int, fd: int, nbytes: int) returns (r: int, bytes: seq<byte>)
      requires Valid() && 0 <= reader < 3 && (fd == 0 && nbytes >= 0 ==> enterState[reader])
      modifies this`bufferIndex, terminalBuffers, enterState
      ensures Valid()
      ensures if fd != 0 || nbytes < 0 then r == -1 && bytes == [] && Abs() == old(Abs())
              else r == |bytes| && bytes == Delivered(old(Abs()), nbytes) && Abs() == Apply(old(Abs()), Deliver(reader, nbytes))
    {
      if fd != 0 || nbytes < 0 { return -1, []; }
      var n := Min(nbytes, bufferIndex);
      bytes := terminalBuffers[terminalBuffer..terminalBuffer + n];
      assert bytes == Line(console.currentTerminal)[..n];
      ClearLine();
      SetEntered(reader, false);
      r := n;
    }

    method ClearLine()
      requires Valid()
      modifies this`bufferIndex, terminalBuffers
      ensures Valid() && Abs() == WithLine(old(Abs()), [])
    {
      ClearTerminalBuffer();
    }

    // ----- switching

    /** switch_terminal: the screens by page remapping, the lines by saving and restoring an index. */
    method SwitchTerminal(t: int, free: bool)
      requires Valid() && 0 <= t < 3
      modifies this`bufferIndex, this`terminalBuffer, bufferIndices, console`tlb, console`tapes, console`screenX,
               console`screenY, console`currentTerminal, console.video, console.pageTable, console.termX, console.termY,
               console.active
      ensures Valid() && Abs() == Apply(old(Abs()), Show(t, free))
    {
      if t == console.currentTerminal { return; }
      if !free && !console.active[t] { return; }
      Redirect(t);
      if !console.active[t] { Activate(); }
    }

    /** The first time a terminal is displayed its screen is cleared. */
    method Activate()
      requires LinesOk() && enterState.Length == 3 && terminalBuffers != console.video && enterState != console.active
      requires bufferIndices != console.termX && bufferIndices != console.termY
      requires var t := console.currentTerminal; console.RestGood(t) && console.Mapped(t) && console.Coherent()
      modifies console`tlb, console`tapes, console`screenX, console`screenY, console.video, console.termX, console.termY,
               console.active
      ensures Valid() && var t, was := console.currentTerminal, old(Abs());
        Abs() == was.(active := was.active[t := true], tapes := was.tapes[t := CLEARED])
    {
      console.active[console.currentTerminal] := true;
      console.Clear();
    }

    /** The displayed terminal changes; no line, no tape and no flag does. */
    method Redirect(t: int)
      requires Valid() && 0 <= t < 3 && t != console.currentTerminal
      modifies this`bufferIndex, this`terminalBuffer, bufferIndices, console`tlb, console`screenX,
               console`screenY, console`currentTerminal, console.video, console.pageTable, console.termX, console.termY
      ensures LinesOk() && Abs() == old(Abs()).(shown := t)
      ensures console.currentTerminal == t && console.Mapped(t) && console.Coherent() && console.RestGood(t)
      ensures console.active[t] ==> console.Valid()
    {
      ghost var c := console.currentTerminal;
      bufferIndices[console.currentTerminal] := bufferIndex;
      bufferIndex := bufferIndices[t];
      terminalBuffer := 128 * t;
      console.SwitchScreen(t);
      forall u | 0 <= u < 3 ensures Line(u) == old(Line(u)) {}
    }
  }
}
