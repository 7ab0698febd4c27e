/** What a terminal shows: a 25 by 80 window that moves down an unbounded tape. */
module Tapes {
  import opened Machine

  const CELLS := 2000

  /** Everything typed, padded where lines ended; `top` rows have scrolled away. */
  datatype Tape = Tape(top: nat, text: seq<byte>)

  const CLEARED := Tape(0, [])

  predicate Fits(t: Tape) {
    80 * t.top <= |t.text| <= 80 * t.top + CELLS
  }

  /** Character i of the window; every cell from the cursor on is blank. */
  function CellOf(t: Tape, i: nat): byte {
    var k := 80 * t.top + i;
    if k < |t.text| then t.text[k] else SPACE
  }

  lemma CellAppended(t: Tape, c: byte, j: nat)
    ensures CellOf(Tape(t.top, t.text + [c]), j) == if 80 * t.top + j == |t.text| then c else CellOf(t, j)
  {
  }

  function Blanks(n: nat): (r: seq<byte>)
    ensures |r| == n && forall i | 0 <= i < n :: r[i] == SPACE
  {
    seq(n, _ => SPACE)
  }

  predicate IsBreak(c: byte) {
    c == NEWLINE || c == RETURN
  }

  /** The window moves down one row only when something is written below it. */
  function Scrolled(t: Tape): Tape {
    if |t.text| >= 80 * t.top + CELLS then Tape(t.top + 1, t.text) else t
  }

  function Padding(t: Tape): nat {
    80 - |t.text| % 80
  }

  /** One character written at the cursor; a line break pads the row with blanks. */
  function Typed(t: Tape, c: byte): Tape {
    var u := Scrolled(t);
    if IsBreak(c) then Tape(u.top, u.text + Blanks(Padding(u))) else Tape(u.top, u.text + [c])
  }

  function TypedAll(t: Tape, s: seq<byte>): Tape
    decreases |s|
  {
    if s == [] then t else TypedAll(Typed(t, s[0]), s[1..])
  }

  /** Backspace removes the last cell unless the cursor is at the window's first. */
  function Erased(t: Tape): Tape {
    if |t.text| > 80 * t.top then Tape(t.top, t.text[..|t.text| - 1]) else t
  }

  function ErasedTimes(t: Tape, n: nat): Tape
    decreases n
  {
    if n == 0 then t else ErasedTimes(Erased(t), n - 1)
  }

  /** Writing keeps the window on the cursor and never changes what is on the tape. */
  lemma TypedKeeps(t: Tape, c: byte)
    requires Fits(t)
    ensures Fits(Typed(t, c)) && t.text < Typed(t, c).text && t.top <= Typed(t, c).top <= t.top + 1
  {
    var n := |t.text| / 80;
    assert |t.text| == 80 * n + |t.text| % 80;
  }

  /** Bytes 10 and 13 end the row with 1 to 80 blanks; every other byte takes one cell. */
  lemma TypedIs(t: Tape, c: byte)
    requires Fits(t)
    ensures var u := Typed(t, c).text;
      if c == 10 || c == 13
      then t.text < u && |u| % 80 == 0 && |u| - |t.text| <= 80 && forall i | |t.text| <= i < |u| :: u[i] == 32
      else u == t.text + [c]
  {
    TypedKeeps(t, c);
    var n := |t.text| / 80;
    assert |t.text| + Padding(t) == 80 * (n + 1);
  }

  /** The window moves down one row exactly when the 2000 cells it shows are used up. */
  lemma ScrollsIff(t: Tape, c: byte)
    requires Fits(t)
    ensures Typed(t, c).top == if |t.text| == 80 * t.top + 2000 then t.top + 1 else t.top
  {
  }

  /** Backspace undoes a printed character, even one that scrolled the window. */
  lemma ErasedUndoesTyped(t: Tape, c: byte)
    requires Fits(t) && !IsBreak(c)
    ensures Erased(Typed(t, c)).text == t.text && Fits(Erased(Typed(t, c)))
  {
  }

  lemma {:induction false} TypedAllText(t: Tape, s: seq<byte>)
    requires Fits(t) && forall i | 0 <= i < |s| :: !IsBreak(s[i])
    ensures var u := TypedAll(t, s);
      Fits(u) && u.text == t.text + s && (u.top == t.top || 80 * u.top + CELLS < |u.text| + 80)
    decreases |s|
  {
    if s == [] {
      assert t.text + s == t.text;
    } else {
      TypedKeeps(t, s[0]);
      TypedAllText(Typed(t, s[0]), s[1..]);
      assert t.text + s == (t.text + [s[0]]) + s[1..];
    }
  }

  lemma {:induction false} ErasedTimesText(t: Tape, n: nat)
    requires n <= |t.text| && 80 * t.top <= |t.text| - n
    ensures ErasedTimes(t, n) == Tape(t.top, t.text[..|t.text| - n])
    decreases n
  {
    if n == 0 {
      assert t.text[..|t.text|] == t.text;
    } else {
      ErasedTimesText(Erased(t), n - 1);
      assert t.text[..|t.text| - 1][..|t.text| - n] == t.text[..|t.text| - n];
    }
  }

  /** Rubbing out everything typed since, up to 24 rows, restores the tape. */
  lemma ErasingUndoesTyping(t: Tape, s: seq<byte>)
    requires Fits(t) && |s| <= CELLS - 80 && forall i | 0 <= i < |s| :: !IsBreak(s[i])
    ensures ErasedTimes(TypedAll(t, s), |s|).text == t.text
  {
    TypedAllText(t, s);
    var u := TypedAll(t, s);
    ErasedTimesText(u, |s|);
    assert u.text[..|u.text| - |s|] == t.text;
  }
}
