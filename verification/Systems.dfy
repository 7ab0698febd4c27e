/** Processes and terminals together: calls on descriptors 0 and 1, keys, switches. */
module Systems {
  import opened Machine
  import opened FileSystem
  import opened Tapes
  import opened Processes
  import opened ProcessStacks
  import opened ProcessSteps
  import opened ProcessEffects
  import opened Terminals

  datatype System = System(s: State, k: Stacks, terms: Terms)

  datatype Action =
    | Call(e: Event)                       // every other call, and clock ticks
    | Sigreturn                            // two system calls that only print a message and fail
    | SetHandler
    | Press(i: Input)                      // a key
    | Switch(terminal: int, frame: Context)
    | Put(bytes: seq<byte>)                // terminal_write by the running process
    | Take(nbytes: nat)                    // the end of terminal_read by the running process

  const NO_SIGRETURN := Ascii("sigreturn syscall occurred\n")
  const NO_HANDLER := Ascii("set_handler syscall occurred\n")

  /** Both machines agree on which terminal is displayed and which are in use. */
  ghost predicate Joint(img: Image, y: System) {
    && WellFormed(img) && Program(img, SHELL).Some? && Inv(img, y.s, y.k)
    && Sized(y.terms) && y.terms.active == y.s.started && y.terms.shown == y.s.shown
  }

  predicate IsKey(i: Input) {
    i.Key? || i.Wipe? || i.Enter? || i.Backspace? || i.Tab?
  }

  /** The kernel's message about an action of the running process. */
  ghost function Message(img: Image, s: State, a: Action): seq<byte>
    requires WellFormed(img)
  {
    match a
    case Call(e) => if e.Execute? then Complaint(img, s.active, e.command) else []
    case Sigreturn => NO_SIGRETURN
    case SetHandler => NO_HANDLER
    case _ => []
  }

  /** The event that the terminals see. */
  ghost function Seen(img: Image, y: System, a: Action): Option<Input>
    requires Shape(y.s) && WellFormed(img)
  {
    match a
    case Press(i) => Some(i)
    case Switch(t, _) => Some(Show(t, FirstFree(y.s.active, 0) != -1))
    case Put(bytes) => Some(Output(CurrentTerminal(y.s), bytes))
    case Take(n) => Some(Deliver(CurrentTerminal(y.s), n))
    case _ => var text := Message(img, y.s, a); if text == [] then None else Some(Report(CurrentTerminal(y.s), text))
  }

  ghost predicate Possible(img: Image, y: System, a: Action)
    requires Joint(img, y)
  {
    match a
    case Call(e) => Admissible(e) && !e.Display?
    case Press(i) => IsKey(i) && Allowed(y.terms, i)
    case Switch(t, _) => 0 <= t < TERMINALS
    case Take(_) => y.terms.entered[CurrentTerminal(y.s)]
    case _ => true
  }

  /** A terminal call reaches the console through the descriptor, and a running process's terminal is in use. */
  lemma TerminalCalls(img: Image, y: System, freq: bv32, nbytes: int)
    requires Joint(img, y)
    ensures 0 <= CurrentTerminal(y.s) < 3 && y.terms.active[CurrentTerminal(y.s)]
    ensures WriteStep(y.s, 1, freq, nbytes) == (y.s, Console) && ReadStep(img, y.s, 0, nbytes) == (y.s, Console)
  {
    CurrentIsTop(img, y.s, y.k);
    assert FdsSound(img, y.s.pcbs[y.s.current].fds, y.s.active[y.s.current] == 1);
  }

  lemma SeenAllowed(img: Image, y: System, a: Action)
    requires Joint(img, y) && Possible(img, y, a)
    ensures var e := Seen(img, y, a); e.Some? ==> Allowed(y.terms, e.value)
  {
    TerminalCalls(img, y, 0, 0);
  }

  ghost function TermsAfter(img: Image, y: System, a: Action): (n: Terms)
    requires Joint(img, y) && Possible(img, y, a)
    ensures Sized(n)
  {
    SeenAllowed(img, y, a);
    match Seen(img, y, a)
    case None => y.terms
    case Some(e) => Apply(y.terms, e)
  }

  ghost function After(img: Image, y: System, a: Action): System
    requires Joint(img, y) && Possible(img, y, a)
  {
    var terms := TermsAfter(img, y, a);
    match a
    case Call(e) => var (n, out) := Step(img, y.s, e); System(n, StacksAfter(y.s, y.k, e, out), terms)
    case Switch(t, frame) =>
      var (n, out) := DisplayStep(img, y.s, t, frame);
      System(n, StacksAfter(y.s, y.k, Display(t, frame), out), terms)
    case _ => y.(terms := terms)
  }

  /** `text` is typed on the displayed terminal; nothing else of the terminals changes. */
  ghost predicate TypesOnDisplay(was: Terms, now: Terms, text: string) {
    Sized(was) && now == was.(tapes := was.tapes[was.shown := TypedAll(was.tapes[was.shown], Ascii(text))])
  }

  /** The kernel's three messages go to the display; an execute gets one exactly for a program without a free pid. */
  lemma MessagesIff(img: Image, y: System, command: seq<byte>, frame: Context)
    requires Joint(img, y) && FitsBuffers(command)
    ensures var n := After(img, y, Call(Execute(command, frame))).terms;
      if Program(img, command).Some? && (forall p | 0 <= p < 6 :: y.s.active[p] != -1)
      then TypesOnDisplay(y.terms, n, "Too many processes\n") else n == y.terms
    ensures TypesOnDisplay(y.terms, After(img, y, Sigreturn).terms, "sigreturn syscall occurred\n")
    ensures TypesOnDisplay(y.terms, After(img, y, SetHandler).terms, "set_handler syscall occurred\n")
  {
    SeenAllowed(img, y, Call(Execute(command, frame)));
    SeenAllowed(img, y, Sigreturn);
    SeenAllowed(img, y, SetHandler);
    assert TOO_MANY != [] && NO_SIGRETURN != [] && NO_HANDLER != [];
  }

  /** Only switches change what is displayed and in use. */
  lemma CallKeepsScreens(img: Image, s: State, k: Stacks, e: Event)
    requires Can(img, s, k, e) && !e.Display?
    ensures Step(img, s, e).0.started == s.started && Step(img, s, e).0.shown == s.shown
  {
    if IsDescriptorEvent(e) { DescriptorLeaves(img, s, k, e); }
    else if e.Tick? {
      CountTopsShape(s.pcbs, s.tops, 0);
      RotateKeepsScreens(s.(pcbs := CountTops(s.pcbs, s.tops, 0), count := QUANTUM), e.frame, 3);
    }
  }

  lemma {:induction false} RotateKeepsScreens(s: State, frame: Context, tries: nat)
    requires Shape(s)
    ensures Rotate(s, frame, tries).started == s.started && Rotate(s, frame, tries).shown == s.shown
    decreases tries
  {
    if tries > 0 { RotateKeepsScreens(s.(index := (s.index + 1) % 3), frame, tries - 1); }
  }

  lemma SwitchAgrees(img: Image, y: System, t: int, frame: Context)
    requires Joint(img, y) && 0 <= t < TERMINALS
    ensures var n, m := DisplayStep(img, y.s, t, frame).0, Apply(y.terms, Show(t, FirstFree(y.s.active, 0) != -1));
      m.active == n.started && m.shown == n.shown
  {
  }

  /** Only switches change what is displayed and in use, on the terminals' side too. */
  lemma TermsKeepScreens(img: Image, y: System, a: Action)
    requires Joint(img, y) && Possible(img, y, a) && !a.Switch?
    ensures TermsAfter(img, y, a).active == y.terms.active && TermsAfter(img, y, a).shown == y.terms.shown
  {
    SeenAllowed(img, y, a);
  }

  lemma ActKeeps(img: Image, y: System, a: Action)
    requires Joint(img, y) && Possible(img, y, a)
    ensures Joint(img, After(img, y, a))
  {
    match a
    case Call(e) =>
      StepKeeps(img, y.s, y.k, e);
      CallKeepsScreens(img, y.s, y.k, e);
      TermsKeepScreens(img, y, a);
    case Switch(t, frame) =>
      StepKeeps(img, y.s, y.k, Display(t, frame));
      SwitchAgrees(img, y, t, frame);
    case _ => TermsKeepScreens(img, y, a);
  }

  /** The machines agree when the first shell starts. */
  lemma BootIsJoint(img: Image, s: State, frame: Context)
    requires WellFormed(img) && Program(img, SHELL).Some? && Initial(s)
    ensures Joint(img, System(Spawn(img, s, SHELL, 0, -1, frame).0, [[0], [], []], BOOTED))
  {
    BootEstablishes(img, s, frame);
  }

  // ----- runs

  /** A run starts where the machines agree, and each next state is an action away. */
  ghost predicate ActsAt(img: Image, ys: seq<System>, todo: seq<Action>, i: nat) {
    && i < |ys| && i <= |todo|
    && if i == 0 then Joint(img, ys[0])
       else Joint(img, ys[i - 1]) ==> Possible(img, ys[i - 1], todo[i - 1]) && ys[i] == After(img, ys[i - 1], todo[i - 1])
  }

  ghost predicate IsSystemRun(img: Image, ys: seq<System>, todo: seq<Action>) {
    |ys| == |todo| + 1 && forall i: nat | i < |ys| :: ActsAt(img, ys, todo, i)
  }

  /** Both machines stay sound and agreed in every run. */
  lemma {:induction false} SystemRunKeeps(img: Image, ys: seq<System>, todo: seq<Action>, n: nat)
    requires IsSystemRun(img, ys, todo) && n <= |todo|
    ensures Joint(img, ys[n])
    decreases n
  {
    assert ActsAt(img, ys, todo, n);
    if n > 0 {
      SystemRunKeeps(img, ys, todo, n - 1);
      ActKeeps(img, ys[n - 1], todo[n - 1]);
    }
  }

  lemma SystemAt(img: Image, ys: seq<System>, todo: seq<Action>, n: nat)
    requires IsSystemRun(img, ys, todo) && n < |todo|
    ensures Joint(img, ys[n]) && Possible(img, ys[n], todo[n]) && ys[n + 1] == After(img, ys[n], todo[n])
  {
    SystemRunKeeps(img, ys, todo, n);
    assert ActsAt(img, ys, todo, n + 1);
  }

  /** Only terminal t's tape grows, by the bytes that are not NUL; lines, flags and the display stay. */
  ghost predicate OnlyTypedOn(was: Terms, now: Terms, t: int, bytes: seq<byte>) {
    && |was.tapes| == |now.tapes| == 3 && 0 <= t < 3
    && now == was.(tapes := now.tapes) && now.tapes[t] == TypedAll(was.tapes[t], NonNul(bytes))
    && forall u | 0 <= u < 3 && u != t :: now.tapes[u] == was.tapes[u]
  }

  /** In every run a process writes to its own terminal's tape, whichever terminal is displayed. */
  lemma WritesReachOwnTerminal(img: Image, ys: seq<System>, todo: seq<Action>, n: nat)
    requires IsSystemRun(img, ys, todo) && n < |todo| && todo[n].Put?
    ensures ys[n + 1].s == ys[n].s && Shape(ys[n].s)
    ensures OnlyTypedOn(ys[n].terms, ys[n + 1].terms, CurrentTerminal(ys[n].s), todo[n].bytes)
  {
    SystemAt(img, ys, todo, n);
    SeenAllowed(img, ys[n], todo[n]);
  }

  function Appended(es: seq<Input>, e: Option<Input>): seq<Input> {
    if e.Some? then es + [e.value] else es
  }

  /** The events that the terminals see in the first n actions. */
  ghost function Inputs(img: Image, ys: seq<System>, todo: seq<Action>, n: nat): seq<Input>
    requires n <= |todo| < |ys| && WellFormed(img)
  {
    if n == 0 then []
    else Appended(Inputs(img, ys, todo, n - 1), if Shape(ys[n - 1].s) then Seen(img, ys[n - 1], todo[n - 1]) else None)
  }

  lemma HistoryGrows(cs: seq<Terms>, es: seq<Input>, e: Input)
    requires IsHistory(cs, es) && Sized(cs[|es|]) && Allowed(cs[|es|], e)
    ensures IsHistory(cs + [Apply(cs[|es|], e)], es + [e])
  {
    var ds, fs := cs + [Apply(cs[|es|], e)], es + [e];
    forall i: nat | i < |fs| ensures AppliesAt(ds, fs, i) {
      if i < |es| { assert AppliesAt(cs, es, i); }
    }
  }

  /** What one action does to the terminals. */
  lemma ActOnTerms(img: Image, ys: seq<System>, todo: seq<Action>, n: nat)
    requires IsSystemRun(img, ys, todo) && n < |todo|
    ensures Joint(img, ys[n]) && Sized(ys[n].terms)
    ensures match Seen(img, ys[n], todo[n])
            case None => ys[n + 1].terms == ys[n].terms
            case Some(e) => Allowed(ys[n].terms, e) && ys[n + 1].terms == Apply(ys[n].terms, e)
  {
    SystemAt(img, ys, todo, n);
    SeenAllowed(img, ys[n], todo[n]);
  }

  /** These terminals' states lead from the run's first to its n-th by the events seen. */
  ghost predicate Projects(img: Image, ys: seq<System>, todo: seq<Action>, n: nat, cs: seq<Terms>) {
    && n <= |todo| < |ys| && WellFormed(img) && IsHistory(cs, Inputs(img, ys, todo, n))
    && cs[0] == ys[0].terms && cs[|cs| - 1] == ys[n].terms
  }

  lemma ProjectsOn(img: Image, ys: seq<System>, todo: seq<Action>, n: nat, cs: seq<Terms>) returns (ds: seq<Terms>)
    requires IsSystemRun(img, ys, todo) && n < |todo| && Projects(img, ys, todo, n, cs)
    ensures Projects(img, ys, todo, n + 1, ds)
  {
    ActOnTerms(img, ys, todo, n);
    var es, seen := Inputs(img, ys, todo, n), Seen(img, ys[n], todo[n]);
    ds := cs;
    if seen.Some? {
      HistoryGrows(cs, es, seen.value);
      ds := cs + [Apply(cs[|es|], seen.value)];
    }
  }

  /** What the terminals go through is a history of the terminals alone. */
  lemma {:induction false} SystemProjects(img: Image, ys: seq<System>, todo: seq<Action>, n: nat) returns (cs: seq<Terms>)
    requires IsSystemRun(img, ys, todo) && n <= |todo|
    ensures Projects(img, ys, todo, n, cs)
    decreases n
  {
    if n == 0 {
      SystemRunKeeps(img, ys, todo, 0);
      cs := [ys[0].terms];
    } else {
      cs := SystemProjects(img, ys, todo, n - 1);
      cs := ProjectsOn(img, ys, todo, n - 1, cs);
    }
  }

  // ----- independence

  /** Terminal t's screen and line. */
  function Own(y: System, t: int): (Tape, seq<byte>) {
    if |y.terms.tapes| == |y.terms.lines| == 3 && 0 <= t < 3 then (y.terms.tapes[t], y.terms.lines[t]) else (CLEARED, [])
  }

  /** What one action asks of terminal t. */
  ghost function OwnActs(img: Image, y: System, a: Action, t: int): seq<Act> {
    if Joint(img, y) && Possible(img, y, a) && 0 <= t < 3 then
      SeenAllowed(img, y, a);
      match Seen(img, y, a)
      case None => []
      case Some(e) => ActsOn(y.terms, e, t)
    else []
  }

  ghost function SystemActs(img: Image, ys: seq<System>, todo: seq<Action>, t: int, n: nat): seq<Act>
  {
    if n == 0 || !(n <= |todo| < |ys|) then [] else SystemActs(img, ys, todo, t, n - 1) + OwnActs(img, ys[n - 1], todo[n - 1], t)
  }

  /** After n actions terminal t's screen and line are what its own keys and its own processes' calls alone make of them. */
  ghost predicate SystemIndependent(img: Image, ys: seq<System>, todo: seq<Action>, t: int, n: nat) {
    n <= |todo| < |ys| && Own(ys[n], t) == ActedAll(Own(ys[0], t), SystemActs(img, ys, todo, t, n))
  }

  ghost predicate LocalAt(img: Image, ys: seq<System>, todo: seq<Action>, t: int, n: nat) {
    n < |todo| < |ys| && Own(ys[n + 1], t) == ActedAll(Own(ys[n], t), OwnActs(img, ys[n], todo[n], t))
  }

  lemma SystemIndependentStep(img: Image, ys: seq<System>, todo: seq<Action>, t: int, n: nat)
    requires n < |todo| < |ys| && SystemIndependent(img, ys, todo, t, n)
    ensures SystemIndependent(img, ys, todo, t, n + 1) <==> LocalAt(img, ys, todo, t, n)
  {
    ActedAllAppend(Own(ys[0], t), SystemActs(img, ys, todo, t, n), OwnActs(img, ys[n], todo[n], t));
  }

  /**
   * What a caller can check: its terminal is displayed, or an execute finds a free pid or no program,
   * or a read finds both lines empty.
   */
  ghost predicate MadeAtHome(img: Image, y: System, a: Action) {
    Joint(img, y) && var t := CurrentTerminal(y.s);
    match a
    case Call(e) => e.Execute? ==> t == y.s.shown || FirstFree(y.s.active, 0) != -1 || Program(img, e.command).None?
    case Sigreturn => t == y.s.shown
    case SetHandler => t == y.s.shown
    case Take(_) => t == y.s.shown || (0 <= t < 3 && y.terms.lines[t] == [] && y.terms.lines[y.s.shown] == [])
    case _ => true
  }

  lemma HomeIsAtHome(img: Image, y: System, a: Action)
    requires Joint(img, y) && Possible(img, y, a)
    ensures match Seen(img, y, a)
            case None => MadeAtHome(img, y, a)
            case Some(e) => Allowed(y.terms, e) && (AtHome(y.terms, e) <==> MadeAtHome(img, y, a))
  {
    SeenAllowed(img, y, a);
    TerminalCalls(img, y, 0, 0);
    assert TOO_MANY != [] && NO_SIGRETURN != [] && NO_HANDLER != [];
  }

  lemma LocalAtIff(img: Image, ys: seq<System>, todo: seq<Action>, n: nat)
    requires IsSystemRun(img, ys, todo) && n < |todo|
    ensures Joint(img, ys[n]) && ((forall t | 0 <= t < 3 :: LocalAt(img, ys, todo, t, n)) <==> MadeAtHome(img, ys[n], todo[n]))
  {
    SystemAt(img, ys, todo, n);
    var y, a := ys[n], todo[n];
    HomeIsAtHome(img, y, a);
    match Seen(img, y, a)
    case None =>
    case Some(e) =>
      StepIsLocalIff(y.terms, e);
      assert forall t | 0 <= t < 3 :: LocalAt(img, ys, todo, t, n) <==> Local(y.terms, e, t);
  }

  ghost predicate HomeAction(img: Image, ys: seq<System>, todo: seq<Action>, n: nat) {
    n < |todo| && n < |ys| && MadeAtHome(img, ys[n], todo[n])
  }

  lemma {:induction false} LocalAdds(img: Image, ys: seq<System>, todo: seq<Action>, t: int, n: nat)
    requires n <= |todo| < |ys| && forall i: nat | i < n :: LocalAt(img, ys, todo, t, i)
    ensures SystemIndependent(img, ys, todo, t, n)
    decreases n
  {
    if n > 0 {
      LocalAdds(img, ys, todo, t, n - 1);
      assert LocalAt(img, ys, todo, t, n - 1);
      SystemIndependentStep(img, ys, todo, t, n - 1);
    }
  }

  lemma HomeRunIsIndependent(img: Image, ys: seq<System>, todo: seq<Action>, t: int, n: nat)
    requires IsSystemRun(img, ys, todo) && n <= |todo| && 0 <= t < 3 && forall i: nat | i < n :: HomeAction(img, ys, todo, i)
    ensures SystemIndependent(img, ys, todo, t, n)
  {
    forall i: nat | i < n ensures LocalAt(img, ys, todo, t, i) {
      assert HomeAction(img, ys, todo, i);
      LocalAtIff(img, ys, todo, i);
    }
    LocalAdds(img, ys, todo, t, n);
  }

  /** The terminals are independent throughout a run of processes and keys exactly when every call in it is made at home. */
  lemma SystemIndependentIff(img: Image, ys: seq<System>, todo: seq<Action>)
    requires IsSystemRun(img, ys, todo)
    ensures (forall n: nat, t | n <= |todo| && 0 <= t < 3 :: SystemIndependent(img, ys, todo, t, n))
      <==> (forall n: nat | n < |todo| :: HomeAction(img, ys, todo, n))
  {
    if forall n: nat | n < |todo| :: HomeAction(img, ys, todo, n) {
      forall n: nat, t | n <= |todo| && 0 <= t < 3 ensures SystemIndependent(img, ys, todo, t, n) {
        HomeRunIsIndependent(img, ys, todo, t, n);
      }
    } else {
      var n: nat :| n < |todo| && !HomeAction(img, ys, todo, n);
      LocalAtIff(img, ys, todo, n);
      var t :| 0 <= t < 3 && !LocalAt(img, ys, todo, t, n);
      if SystemIndependent(img, ys, todo, t, n) { SystemIndependentStep(img, ys, todo, t, n); }
    }
  }

  /** A read by the running process is served at home exactly when its terminal is displayed or both lines are empty. */
  lemma TakeAtHomeIff(img: Image, y: System, nbytes: nat)
    requires Joint(img, y) && Possible(img, y, Take(nbytes))
    ensures var t := CurrentTerminal(y.s);
      Sized(y.terms) && 0 <= t < 3 && y.terms.entered[t]
      && (ReadsOwnLine(y.terms, t, nbytes) <==> t == y.s.shown || (y.terms.lines[t] == [] && y.terms.lines[y.s.shown] == []))
  {
    TerminalCalls(img, y, 0, 0);
    ReadsOwnLineIff(y.terms, CurrentTerminal(y.s), nbytes);
  }
}
