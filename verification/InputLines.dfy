/** Input lines over whole histories: what a reader is given, and when it is let go. */
module InputLines {
  import opened Machine
  import opened Tapes
  import opened Terminals

  // ----- the enter flag

  /** Event m is an enter typed while terminal r is displayed. */
  ghost predicate EnteredAt(cs: seq<Terms>, es: seq<Input>, r: int, m: nat) {
    m < |es| && m < |cs| && es[m].Enter? && cs[m].shown == r
  }

  predicate TakenAt(es: seq<Input>, r: int, m: nat) {
    m < |es| && es[m].Deliver? && es[m].reader == r
  }

  /** Event m is an enter for terminal r, and none of r's reads has been served between m and n. */
  ghost predicate Pending(cs: seq<Terms>, es: seq<Input>, r: int, m: nat, n: nat) {
    EnteredAt(cs, es, r, m) && forall q: nat | m < q < n :: !TakenAt(es, r, q)
  }

  ghost predicate HasPending(cs: seq<Terms>, es: seq<Input>, r: int, i: nat, n: nat) {
    exists m: nat :: i <= m < n && Pending(cs, es, r, m, n)
  }

  lemma PendingStep(cs: seq<Terms>, es: seq<Input>, r: int, i: nat, n: nat)
    requires i <= n < |es| && n < |cs|
    ensures HasPending(cs, es, r, i, n + 1) <==>
      EnteredAt(cs, es, r, n) || (HasPending(cs, es, r, i, n) && !TakenAt(es, r, n))
  {
    if EnteredAt(cs, es, r, n) {
      assert Pending(cs, es, r, n, n + 1);
    } else if HasPending(cs, es, r, i, n) && !TakenAt(es, r, n) {
      var m: nat :| i <= m < n && Pending(cs, es, r, m, n);
      assert Pending(cs, es, r, m, n + 1);
    }
    if HasPending(cs, es, r, i, n + 1) && !EnteredAt(cs, es, r, n) {
      var m: nat :| i <= m < n + 1 && Pending(cs, es, r, m, n + 1);
      assert Pending(cs, es, r, m, n);
    }
  }

  /** A terminal's readers are let go exactly when enter was typed on it and no read of it has been served since. */
  lemma {:induction false} EnteredIff(cs: seq<Terms>, es: seq<Input>, r: int, i: nat, n: nat)
    requires IsHistory(cs, es) && i <= n <= |es| && 0 <= r < 3 && Sized(cs[i]) && !cs[i].entered[r]
    ensures Sized(cs[n]) && (cs[n].entered[r] <==> HasPending(cs, es, r, i, n))
    decreases n
  {
    if i < n {
      EnteredIff(cs, es, r, i, n - 1);
      HistoryAt(cs, es, n - 1);
      PendingStep(cs, es, r, i, n - 1);
    }
  }

  /** Between two reads served for one terminal, enter was typed on it. */
  lemma EveryReadNeedsEnter(cs: seq<Terms>, es: seq<Input>, r: int, i: nat, j: nat)
    requires IsHistory(cs, es) && i < j < |es| && 0 <= r < 3 && TakenAt(es, r, i) && TakenAt(es, r, j)
    ensures exists m: nat :: i < m < j && EnteredAt(cs, es, r, m)
  {
    HistoryAt(cs, es, i);
    HistoryAt(cs, es, j);
    EnteredIff(cs, es, r, i + 1, j);
    var m: nat :| i + 1 <= m < j && Pending(cs, es, r, m, j);
  }

  /** No line outgrows its 128-byte buffer. */
  lemma {:induction false} LinesFit(cs: seq<Terms>, es: seq<Input>, t: int, n: nat)
    requires IsHistory(cs, es) && n <= |es| && 0 <= t < 3 && |cs[0].lines[t]| <= 128
    ensures Sized(cs[n]) && |cs[n].lines[t]| <= 128
    decreases n
  {
    if n > 0 {
      LinesFit(cs, es, t, n - 1);
      HistoryAt(cs, es, n - 1);
    }
  }

  // ----- a line from the keys to its reader

  /** What edits the line: everything but output to the terminal and control-L. */
  function Edits(acts: seq<Act>): seq<Act> {
    if acts == [] then []
    else (if acts[0].Typing? || acts[0].Wiping? then [] else [acts[0]]) + Edits(acts[1..])
  }

  lemma {:induction false} LineByEdits(a: Tape, b: Tape, line: seq<byte>, acts: seq<Act>)
    ensures ActedAll((a, line), acts).1 == ActedAll((b, line), Edits(acts)).1
    decreases |acts|
  {
    if acts != [] {
      var (a', line') := Acted((a, line), acts[0]);
      if acts[0].Typing? || acts[0].Wiping? {
        assert Edits(acts) == Edits(acts[1..]);
        LineByEdits(a', b, line', acts[1..]);
      } else {
        assert Edits(acts)[1..] == Edits(acts[1..]);
        LineByEdits(a', Acted((b, line), acts[0]).0, line', acts[1..]);
      }
    }
  }

  /** Keys w and then enter, on an empty line. */
  lemma LineOfKeys(tape: Tape, w: seq<byte>)
    ensures ActedAll((tape, []), Keys(w) + [Entering]).1 == (if |w| <= 127 then w else w[..127]) + [10]
  {
    KeysType(tape, [], w);
    ActedAllAppend((tape, []), Keys(w), [Entering]);
    var mid := ActedAll((tape, []), Keys(w));
    assert ActedAll(mid, [Entering]) == ActedAll(Acted(mid, [Entering][0]), []);
    assert w[..|w|] == w;
  }

  /**
   * Whatever is printed meanwhile and whatever happens on the other terminals: when w and enter are what was
   * typed on a terminal, its reader is given w, cut to 127 characters, and the newline, as far as it asked for.
   */
  lemma LineReachesReader(cs: seq<Terms>, es: seq<Input>, t: int, w: seq<byte>, nbytes: nat, n: nat)
    requires IsHistory(cs, es) && n < |es| && 0 <= t < 3 && es[n] == Deliver(t, nbytes) && cs[0].lines[t] == []
    requires (forall i: nat | i <= n :: HomeAt(cs, es, i)) && Edits(Acts(cs, es, t, n)) == Keys(w) + [Entering]
    ensures Sized(cs[n]) && Sized(cs[n + 1]) && cs[n + 1].lines[t] == []
    ensures var line := (if |w| <= 127 then w else w[..127]) + [10];
      Delivered(cs[n], nbytes) == if nbytes < |line| then line[..nbytes] else line
  {
    HistoryAt(cs, es, n);
    TerminalsAreIndependent(cs, es, t, n);
    LineByEdits(cs[0].tapes[t], CLEARED, [], Acts(cs, es, t, n));
    LineOfKeys(CLEARED, w);
    assert HomeAt(cs, es, n);
  }

  /** On screen the keys and the enter are the text and the rest of its row. */
  lemma EchoShows(tape: Tape, line: seq<byte>, w: seq<byte>)
    requires Fits(tape) && |line| + |w| <= 127 && 10 !in w && 13 !in w
    ensures var u := ActedAll((tape, line), Keys(w) + [Entering]).0.text;
      tape.text + w < u && |u| % 80 == 0 && |u| - |tape.text + w| <= 80
      && forall i | |tape.text + w| <= i < |u| :: u[i] == 32
  {
    KeysType(tape, line, w);
    assert w[..|w|] == w;
    ActedAllAppend((tape, line), Keys(w), [Entering]);
    var mid := ActedAll((tape, line), Keys(w));
    assert ActedAll(mid, [Entering]) == ActedAll(Acted(mid, [Entering][0]), []);
    TypedAllText(tape, w);
    TypedIs(mid.0, 10);
  }

  /** Tab shows four blanks and enters nothing. */
  lemma TabTypes(s: Terms)
    requires Sized(s) && Fits(s.tapes[s.shown])
    ensures var n := Apply(s, Tab);
      n == s.(tapes := s.tapes[s.shown := n.tapes[s.shown]]) && n.tapes[s.shown].text == s.tapes[s.shown].text + [32, 32, 32, 32]
  {
    TypedAllText(s.tapes[s.shown], [32, 32, 32, 32]);
  }
}
