/**
 * Two runs from boot in which a process of one terminal reaches into another: it types a message on a
 * screen that is not its own, and it is given a line that was not typed for it. Both runs are built
 * action by action, each action but the last made at home.
 */
module CrossTalk {
  import opened Machine
  import opened FileSystem
  import opened Tapes
  import opened Processes
  import opened ProcessStacks
  import opened ProcessSteps
  import opened ProcessEffects
  import opened Terminals
  import opened Systems

  const SOME_FRAME := Context(0, 0)

  /** Which pids are live, which process runs on which terminal, and what is displayed and in use. */
  ghost predicate Situation(img: Image, y: System, active: seq<int>, current: int, terminal: int, shown: int, started: seq<bool>) {
    && Joint(img, y) && y.s.active == active && y.s.current == current && CurrentTerminal(y.s) == terminal
    && y.s.shown == shown && y.s.started == started
  }

  lemma FreeIs(active: seq<int>, p: nat)
    requires p < |active| && active[p] == -1 && forall q | 0 <= q < p :: active[q] != -1
    ensures FirstFree(active, 0) == p
  {
  }

  lemma SpawnedRuns(img: Image, s: State, command: seq<byte>, t: int, parent: int, frame: Context, p: int)
    requires WellFormed(img) && |s.active| == |s.pcbs| == PIDS && |s.memory| == PIDS * FRAME && |s.tops| == TERMINALS
    requires -1 <= s.current < PIDS && 0 <= t < TERMINALS && Program(img, command).Some? && p == FirstFree(s.active, 0) != -1
    ensures var n := Spawn(img, s, command, t, parent, frame).0;
      n.active == s.active[p := 1] && n.current == p && |n.pcbs| == PIDS && n.pcbs[p].terminal == t
      && n.shown == s.shown && n.started == s.started
  {
  }

  lemma Booted(img: Image, s: State) returns (y: System)
    requires WellFormed(img) && Program(img, SHELL).Some? && Initial(s)
    ensures y.terms == BOOTED && Situation(img, y, [1, -1, -1, -1, -1, -1], 0, 0, 0, [true, false, false])
  {
    BootIsJoint(img, s, SOME_FRAME);
    FreeIs(s.active, 0);
    SpawnedRuns(img, s, SHELL, 0, -1, SOME_FRAME, 0);
    y := System(Spawn(img, s, SHELL, 0, -1, SOME_FRAME).0, [[0], [], []], BOOTED);
  }

  /** execute("shell") with a free pid: the child runs on the same terminal and nothing is printed. */
  lemma Runs(img: Image, y: System, active: seq<int>, current: int, terminal: int, shown: int, started: seq<bool>, p: nat)
    requires Situation(img, y, active, current, terminal, shown, started)
    requires p < PIDS && active[p] == -1 && forall q | 0 <= q < p :: active[q] != -1
    ensures Possible(img, y, Call(Execute(SHELL, SOME_FRAME)))
    ensures var n := After(img, y, Call(Execute(SHELL, SOME_FRAME)));
      Situation(img, n, active[p := 1], p, terminal, shown, started) && n.terms == y.terms
  {
    FreeIs(active, p);
    ShellFits();
    ActKeeps(img, y, Call(Execute(SHELL, SOME_FRAME)));
    SpawnedRuns(img, y.s, SHELL, terminal, current, SOME_FRAME, p);
  }

  // ----- putting runs together

  lemma Longer(img: Image, ys: seq<System>, todo: seq<Action>, a: Action)
    requires IsSystemRun(img, ys, todo) && Joint(img, ys[|todo|]) && Possible(img, ys[|todo|], a)
    ensures IsSystemRun(img, ys + [After(img, ys[|todo|], a)], todo + [a])
  {
    var zs, more := ys + [After(img, ys[|todo|], a)], todo + [a];
    forall i: nat | i < |zs| ensures ActsAt(img, zs, more, i) {
      if i < |ys| { assert ActsAt(img, ys, todo, i); }
    }
  }

  /** A run in which every call was made at home. */
  ghost predicate HomeRun(img: Image, ys: seq<System>, todo: seq<Action>) {
    IsSystemRun(img, ys, todo) && AllHome(img, ys, todo)
  }

  ghost predicate AllHome(img: Image, ys: seq<System>, todo: seq<Action>) {
    forall i: nat | i < |todo| :: HomeAction(img, ys, todo, i)
  }

  lemma SameHomes(img: Image, ys: seq<System>, todo: seq<Action>, y: System, a: Action)
    requires |todo| < |ys| && forall i: nat | i < |todo| :: HomeAction(img, ys, todo, i)
    ensures forall i: nat | i < |todo| :: HomeAction(img, ys + [y], todo + [a], i)
  {
    forall i: nat | i < |todo| ensures HomeAction(img, ys + [y], todo + [a], i) {
      assert HomeAction(img, ys, todo, i);
    }
  }

  lemma OneMoreHome(img: Image, ys: seq<System>, todo: seq<Action>, y: System, a: Action)
    requires |ys| == |todo| + 1 && AllHome(img, ys, todo) && Joint(img, ys[|todo|]) && MadeAtHome(img, ys[|todo|], a)
    ensures AllHome(img, ys + [y], todo + [a])
  {
    SameHomes(img, ys, todo, y, a);
    assert HomeAction(img, ys + [y], todo + [a], |todo|);
  }

  lemma LongerHome(img: Image, ys: seq<System>, todo: seq<Action>, a: Action)
    requires HomeRun(img, ys, todo)
    requires Joint(img, ys[|todo|]) && Possible(img, ys[|todo|], a) && MadeAtHome(img, ys[|todo|], a)
    ensures HomeRun(img, ys + [After(img, ys[|todo|], a)], todo + [a])
  {
    Longer(img, ys, todo, a);
    OneMoreHome(img, ys, todo, After(img, ys[|todo|], a), a);
  }

  /** execute("shell"), as often as there are free pids; p is the first of them. */
  lemma {:induction false} Fills(img: Image, ys: seq<System>, todo: seq<Action>, active: seq<int>, current: int,
                                 terminal: int, shown: int, started: seq<bool>, p: nat) returns (zs: seq<System>, done: seq<Action>)
    requires HomeRun(img, ys, todo) && p <= PIDS && |active| == PIDS
    requires Situation(img, ys[|todo|], active, current, terminal, shown, started)
    requires (forall q | 0 <= q < p :: active[q] == 1) && (forall q | p <= q < PIDS :: active[q] == -1)
    ensures HomeRun(img, zs, done) && zs[0] == ys[0]
    ensures Situation(img, zs[|done|], [1, 1, 1, 1, 1, 1], if p == PIDS then current else PIDS - 1, terminal, shown, started)
    decreases PIDS - p
  {
    if p == PIDS {
      assert active == [1, 1, 1, 1, 1, 1];
      return ys, todo;
    }
    var y, a := ys[|todo|], Call(Execute(SHELL, SOME_FRAME));
    Runs(img, y, active, current, terminal, shown, started, p);
    FreeIs(active, p);
    LongerHome(img, ys, todo, a);
    zs, done := Fills(img, ys + [After(img, y, a)], todo + [a], active[p := 1], p, terminal, shown, started, p + 1);
  }

  /** A run from boot, made at home, that leads to this situation. */
  ghost predicate Reached(img: Image, ys: seq<System>, todo: seq<Action>, active: seq<int>, current: int,
                          terminal: int, shown: int, started: seq<bool>, terms: Terms) {
    && HomeRun(img, ys, todo) && ys[0].terms == BOOTED
    && Situation(img, ys[|todo|], active, current, terminal, shown, started) && ys[|todo|].terms == terms
  }

  /** The first switch to terminal 1 starts a shell there, and that shell runs. */
  lemma OpenReached(img: Image, s: State) returns (ys: seq<System>, todo: seq<Action>)
    requires WellFormed(img) && Program(img, SHELL).Some? && Initial(s)
    ensures Reached(img, ys, todo, [1, 1, -1, -1, -1, -1], 1, 1, 1, [true, true, false], Apply(BOOTED, Show(1, true)))
  {
    var y := Booted(img, s);
    assert ActsAt(img, [y], [], 0);
    FreeIs(y.s.active, 1);
    ActKeeps(img, y, Switch(1, SOME_FRAME));
    SpawnedRuns(img, y.s.(shown := 1, started := [true, true, false]), SHELL, 1, -1, SOME_FRAME, 1);
    LongerHome(img, [y], [], Switch(1, SOME_FRAME));
    ys, todo := [y] + [After(img, y, Switch(1, SOME_FRAME))], [] + [Switch(1, SOME_FRAME)];
  }

  /** A key changes no process. */
  lemma PressReached(img: Image, ys: seq<System>, todo: seq<Action>, active: seq<int>, current: int,
                     terminal: int, shown: int, started: seq<bool>, terms: Terms, i: Input)
    returns (zs: seq<System>, more: seq<Action>)
    requires Reached(img, ys, todo, active, current, terminal, shown, started, terms)
    requires Sized(terms) && IsKey(i) && Allowed(terms, i)
    ensures Reached(img, zs, more, active, current, terminal, shown, started, Apply(terms, i))
  {
    ActKeeps(img, ys[|todo|], Press(i));
    LongerHome(img, ys, todo, Press(i));
    zs, more := ys + [After(img, ys[|todo|], Press(i))], todo + [Press(i)];
  }

  /** A switch to a terminal in use only changes what is displayed. */
  lemma ShowReached(img: Image, ys: seq<System>, todo: seq<Action>, active: seq<int>, current: int,
                    terminal: int, shown: int, started: seq<bool>, terms: Terms, t: int, free: bool)
    returns (zs: seq<System>, more: seq<Action>)
    requires Reached(img, ys, todo, active, current, terminal, shown, started, terms)
    requires 0 <= t < 3 && t != shown && started[t] && free == (FirstFree(active, 0) != -1)
    ensures Sized(terms) && Reached(img, zs, more, active, current, terminal, t, started, Apply(terms, Show(t, free)))
  {
    var a := Switch(t, SOME_FRAME);
    ActKeeps(img, ys[|todo|], a);
    LongerHome(img, ys, todo, a);
    zs, more := ys + [After(img, ys[|todo|], a)], todo + [a];
  }

  /** A process of terminal 1 is running while terminal 0 is displayed, and every pid is taken. */
  ghost predicate Crowded(img: Image, ys: seq<System>, todo: seq<Action>) {
    && HomeRun(img, ys, todo) && ys[0].terms == BOOTED
    && Situation(img, ys[|todo|], [1, 1, 1, 1, 1, 1], 5, 1, 0, [true, true, false])
  }

  lemma CrowdedReached(img: Image, s: State) returns (ys: seq<System>, todo: seq<Action>)
    requires WellFormed(img) && Program(img, SHELL).Some? && Initial(s)
    ensures Crowded(img, ys, todo)
  {
    var started, full := [true, true, false], [1, 1, 1, 1, 1, 1];
    ys, todo := OpenReached(img, s);
    ys, todo := Fills(img, ys, todo, [1, 1, -1, -1, -1, -1], 1, 1, 1, started, 2);
    ys, todo := ShowReached(img, ys, todo, full, 5, 1, 1, started, ys[|todo|].terms, 0, false);
  }

  /** Step n is the first that is not made at home, and with it terminal 0 stops being independent. */
  ghost predicate Departure(img: Image, ys: seq<System>, todo: seq<Action>, n: nat, a: Action) {
    && IsSystemRun(img, ys, todo) && ys[0].terms == BOOTED && |todo| == n + 1 && todo[n] == a && !HomeAction(img, ys, todo, n)
    && (forall i: nat | i < n :: HomeAction(img, ys, todo, i))
    && SystemIndependent(img, ys, todo, 0, n) && !SystemIndependent(img, ys, todo, 0, n + 1)
  }

  lemma Departs(img: Image, before: seq<System>, acts: seq<Action>, a: Action) returns (ys: seq<System>, todo: seq<Action>)
    requires HomeRun(img, before, acts) && Joint(img, before[|acts|]) && Possible(img, before[|acts|], a)
    requires var y := before[|acts|];
      !MadeAtHome(img, y, a) && Own(After(img, y, a), 0) != ActedAll(Own(y, 0), OwnActs(img, y, a, 0))
    requires before[0].terms == BOOTED
    ensures ys == before + [After(img, before[|acts|], a)] && Departure(img, ys, todo, |acts|, a)
  {
    var n := |acts|;
    Longer(img, before, acts, a);
    ys, todo := before + [After(img, before[n], a)], acts + [a];
    SameHomes(img, before, acts, After(img, before[n], a), a);
    HomeRunIsIndependent(img, ys, todo, 0, n);
    SystemIndependentStep(img, ys, todo, 0, n);
  }

  /** Nothing but terminal 0's tape changes, which gets the message. */
  ghost predicate Complains(y: System, z: System) {
    Sized(y.terms) && z.s == y.s && z.terms == WithTape(y.terms, 0, TypedAll(y.terms.tapes[0], Ascii("Too many processes\n")))
  }

  /** The last of these actions is an execute by a process of terminal 1 that fails and types its message on terminal 0. */
  ghost predicate HiddenExecute(img: Image, ys: seq<System>, todo: seq<Action>, n: nat) {
    && Departure(img, ys, todo, n, Call(Execute(SHELL, SOME_FRAME))) && Complains(ys[n], ys[n + 1])
    && Situation(img, ys[n], [1, 1, 1, 1, 1, 1], 5, 1, 0, [true, true, false])
  }

  /**
   * There is a run from boot in which an execute by a process of terminal 1, with every pid taken and
   * terminal 0 displayed, fails and types its message on terminal 0.
   */
  lemma HiddenExecuteWritesOnDisplay(img: Image, s: State)
    requires WellFormed(img) && Program(img, SHELL).Some? && Initial(s)
    ensures exists ys, todo, n: nat :: HiddenExecute(img, ys, todo, n)
  {
    var before, acts := CrowdedReached(img, s);
    FailsAloud(img, before[|acts|]);
    var ys, todo := Departs(img, before, acts, Call(Execute(SHELL, SOME_FRAME)));
    assert HiddenExecute(img, ys, todo, |acts|);
  }

  lemma FailsAloud(img: Image, y: System)
    requires Situation(img, y, [1, 1, 1, 1, 1, 1], 5, 1, 0, [true, true, false])
    ensures var a := Call(Execute(SHELL, SOME_FRAME));
      Possible(img, y, a) && !MadeAtHome(img, y, a) && Complains(y, After(img, y, a))
      && Own(After(img, y, a), 0) != ActedAll(Own(y, 0), OwnActs(img, y, a, 0))
  {
    var a := Call(Execute(SHELL, SOME_FRAME));
    ShellFits();
    SeenAllowed(img, y, a);
    assert TOO_MANY != [] && Seen(img, y, a) == Some(Report(1, TOO_MANY));
    assert OwnActs(img, y, a, 0) == [];
    TypedAllGrows(y.terms.tapes[0], TOO_MANY);
  }

  // ----- a misdirected read

  /** What typing "a", Enter on terminal 1 and "b" on terminal 0 leaves in the lines. */
  lemma TypedOnTwo(a: Terms, b: Terms, c: Terms, d: Terms, e: Terms)
    requires a == Apply(BOOTED, Show(1, true)) && b == Apply(a, Key(97)) && Allowed(b, Enter) && c == Apply(b, Enter)
    requires d == Apply(c, Show(0, true)) && e == Apply(d, Key(98))
    ensures e.lines == [[98], [97, NEWLINE], []] && e.entered[1] && e.shown == 0
  {
    assert b.lines[1] == [97] && b.lines == [[], [97], []];
    assert c.lines[1] == [97, NEWLINE] && c.lines == [[], [97, NEWLINE], []];
    assert e.lines[0] == [98] && e.lines == [[98], [97, NEWLINE], []];
  }

  /** Terminal 1's shell is running and has been sent a line. */
  lemma LineReached(img: Image, s: State, a: Terms, b: Terms) returns (ys: seq<System>, todo: seq<Action>)
    requires WellFormed(img) && Program(img, SHELL).Some? && Initial(s)
    requires a == Apply(BOOTED, Show(1, true)) && b == Apply(a, Key(97)) && Allowed(b, Enter)
    ensures Reached(img, ys, todo, [1, 1, -1, -1, -1, -1], 1, 1, 1, [true, true, false], Apply(b, Enter))
  {
    var active, started := [1, 1, -1, -1, -1, -1], [true, true, false];
    ys, todo := OpenReached(img, s);
    ys, todo := PressReached(img, ys, todo, active, 1, 1, 1, started, a, Key(97));
    ys, todo := PressReached(img, ys, todo, active, 1, 1, 1, started, b, Enter);
  }

  /** Terminal 0 is displayed and has "b" typed on it, while terminal 1's shell is running. */
  lemma TypedReached(img: Image, s: State) returns (ys: seq<System>, todo: seq<Action>, terms: Terms)
    requires WellFormed(img) && Program(img, SHELL).Some? && Initial(s)
    ensures Reached(img, ys, todo, [1, 1, -1, -1, -1, -1], 1, 1, 0, [true, true, false], terms)
    ensures terms.lines == [[98], [97, NEWLINE], []] && Sized(terms) && terms.entered[1]
  {
    var active, started := [1, 1, -1, -1, -1, -1], [true, true, false];
    var a := Apply(BOOTED, Show(1, true));
    var b := Apply(a, Key(97));
    assert |b.lines[1]| == 1;
    var c := Apply(b, Enter);
    var d := Apply(c, Show(0, true));
    terms := Apply(d, Key(98));
    TypedOnTwo(a, b, c, d, terms);
    FreeIs(active, 2);
    ys, todo := LineReached(img, s, a, b);
    ys, todo := ShowReached(img, ys, todo, active, 1, 1, 1, started, c, 0, true);
    ys, todo := PressReached(img, ys, todo, active, 1, 1, 0, started, d, Key(98));
  }

  lemma ReadsOther(img: Image, y: System, active: seq<int>, started: seq<bool>)
    requires Situation(img, y, active, 1, 1, 0, started)
    requires y.terms.lines == [[98], [97, NEWLINE], []] && y.terms.entered[1]
    ensures Possible(img, y, Take(10)) && !MadeAtHome(img, y, Take(10)) && Terminals.Delivered(y.terms, 10) == [98]
    ensures After(img, y, Take(10)).s == y.s && After(img, y, Take(10)).terms.lines == [[], [97, NEWLINE], []]
    ensures Own(After(img, y, Take(10)), 0) != ActedAll(Own(y, 0), OwnActs(img, y, Take(10), 0))
  {
    SeenAllowed(img, y, Take(10));
    assert OwnActs(img, y, Take(10), 0) == [];
  }

  /** The last of these actions is a read by terminal 1's shell, which gets and empties what was typed on terminal 0. */
  ghost predicate Misdirected(img: Image, ys: seq<System>, todo: seq<Action>, n: nat) {
    && Departure(img, ys, todo, n, Take(10))
    && Situation(img, ys[n], [1, 1, -1, -1, -1, -1], 1, 1, 0, [true, true, false])
    && ys[n].terms.lines == [[98], [97, NEWLINE], []] && Terminals.Delivered(ys[n].terms, 10) == [98]
    && ys[n + 1].terms.lines == [[], [97, NEWLINE], []]
  }

  /**
   * There is a run from boot in which terminal 1's shell, running while terminal 0 is displayed, reads the
   * "b" that was typed on terminal 0 and empties that line; its own line stays where it is.
   */
  lemma MisdirectedRead(img: Image, s: State)
    requires WellFormed(img) && Program(img, SHELL).Some? && Initial(s)
    ensures exists ys, todo, n: nat :: Misdirected(img, ys, todo, n)
  {
    var before, acts, terms := TypedReached(img, s);
    ReadsOther(img, before[|acts|], [1, 1, -1, -1, -1, -1], [true, true, false]);
    var ys, todo := Departs(img, before, acts, Take(10));
    assert Misdirected(img, ys, todo, |acts|);
  }
}
