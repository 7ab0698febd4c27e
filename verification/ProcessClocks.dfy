/** Which descriptor slots are clocks: exactly those opened as one and not closed since. */
module ProcessClocks {
  import opened Machine
  import opened FileSystem
  import opened Processes
  import opened ProcessStacks
  import opened ProcessSteps
  import opened ProcessEffects
  import opened ProcessRuns

  /** The (process, descriptor) pairs that are open clocks after a step, told from calls and results alone. */
  function OpenClocks(open: set<(int, int)>, current: int, e: Event, out: Output): set<(int, int)> {
    match e
    case Open(name) => if IsRtcName(name) && out.Returned? && out.value != -1 then open + {(current, out.value)} else open
    case Close(fd) => if out == Returned(0) then open - {(current, fd)} else open
    case Halt(_) => set c | c in open && c.0 != current
    case _ => open
  }

  /** The same after the first n steps of a run. */
  ghost function OpenClocksAt(cs: seq<Config>, es: seq<Event>, open: set<(int, int)>, n: nat): set<(int, int)> {
    if n == 0 || !(n <= |es| < |cs|) then open else OpenClocks(OpenClocksAt(cs, es, open, n - 1), cs[n - 1].s.current, es[n - 1], cs[n].out)
  }

  ghost predicate ClocksAre(s: State, open: set<(int, int)>) {
    forall p, fd :: (p, fd) in open <==> IsClock(s, p, fd)
  }

  /** Creating a process leaves every table above slot 1 alone, the stale ones of the new process included. */
  lemma SpawnKeepsTables(img: Image, g: State, command: seq<byte>, t: int, parent: int, frame: Context, p: int, fd: int)
    requires WellFormed(img) && |g.active| == |g.pcbs| == PIDS && |g.memory| == PIDS * FRAME && |g.tops| == TERMINALS
    requires -1 <= g.current < PIDS && 0 <= t < TERMINALS
    ensures IsClock(Spawn(img, g, command, t, parent, frame).0, p, fd) <==> IsClock(g, p, fd)
  {
    var pid := FirstFree(g.active, 0);
    if 0 <= p == pid && 2 <= fd < |g.pcbs[p].fds| { assert FreshFds(g.pcbs[p].fds)[fd].table == g.pcbs[p].fds[fd].table; }
  }

  /** A new process starts without clocks, whatever its slot was used for before. */
  lemma NewProcessHasNoClock(img: Image, s: State, k: Stacks, command: seq<byte>, frame: Context, fd: int)
    requires Inv(img, s, k) && ExecuteStep(img, s, command, frame).1.Started?
    ensures var (n, out) := ExecuteStep(img, s, command, frame); !IsClock(n, out.pid, fd)
  {
    var pid := FirstFree(s.active, 0);
    assert FdsSound(img, s.pcbs[pid].fds, s.active[pid] == 1);
    if 2 <= fd < SLOTS { assert SlotSound(img, s.pcbs[pid].fds[fd], s.active[pid] == 1); }
    SpawnKeepsTables(img, s, command, s.pcbs[s.current].terminal, s.current, frame, pid, fd);
  }

  lemma TickTables(s: State, k: Stacks, frame: Context, p: int, fd: int)
    requires Shape(s) && Linked(s, k) && Topped(s, k)
    ensures IsClock(TickStep(s, frame).0, p, fd) <==> IsClock(s, p, fd)
  {
    if 0 <= p < PIDS { TickLeaves(s, k, frame, p); }
  }

  lemma HaltTables(img: Image, s: State, k: Stacks, status: u32, p: int, fd: int)
    requires Inv(img, s, k)
    ensures IsClock(HaltStep(img, s, status).0, p, fd) <==> IsClock(s, p, fd) && p != s.current
  {
    assert FdsSound(img, s.pcbs[s.current].fds, s.active[s.current] == 1);
    var me := s.pcbs[s.current];
    var g := Gone(s);
    assert IsClock(g, p, fd) <==> IsClock(s, p, fd) && p != s.current by {
      if p == s.current && 2 <= fd < SLOTS { assert SlotSound(img, me.fds[fd], s.active[p] == 1); }
    }
    if me.parent == -1 { SpawnKeepsTables(img, g.(current := -1), SHELL, me.terminal, -1, me.context, p, fd); }
  }

  lemma OpenCloseTables(img: Image, s: State, k: Stacks, e: Event, open: set<(int, int)>, p: int, fd: int)
    requires Can(img, s, k, e) && (e.Open? || e.Close?) && ((p, fd) in open <==> IsClock(s, p, fd))
    ensures (p, fd) in OpenClocks(open, s.current, e, Step(img, s, e).1) <==> IsClock(Step(img, s, e).0, p, fd)
  {
    var fds := s.pcbs[s.current].fds;
    assert FdsSound(img, fds, s.active[s.current] == 1);
    if p == s.current && 2 <= fd < SLOTS { assert SlotSound(img, fds[fd], s.active[p] == 1); }
  }

  lemma CallTables(img: Image, s: State, k: Stacks, e: Event, p: int, fd: int)
    requires Can(img, s, k, e) && (e.Read? || e.Write? || e.Store?)
    ensures IsClock(Step(img, s, e).0, p, fd) <==> IsClock(s, p, fd)
  {
    assert PcbShape(s.pcbs[s.current]);
  }

  lemma ClockTables(img: Image, s: State, k: Stacks, e: Event, open: set<(int, int)>, p: int, fd: int)
    requires Can(img, s, k, e) && ClocksAre(s, open)
    ensures (p, fd) in OpenClocks(open, s.current, e, Step(img, s, e).1) <==> IsClock(Step(img, s, e).0, p, fd)
  {
    assert (p, fd) in open <==> IsClock(s, p, fd);
    match e
    case Execute(command, frame) => SpawnKeepsTables(img, s, command, s.pcbs[s.current].terminal, s.current, frame, p, fd);
    case Halt(status) => HaltTables(img, s, k, status, p, fd);
    case Tick(frame) => TickTables(s, k, frame, p, fd);
    case Display(t, frame) =>
      SpawnKeepsTables(img, s.(shown := t, started := s.started[t := true]), SHELL, t, -1, frame, p, fd);
    case Open(_) => OpenCloseTables(img, s, k, e, open, p, fd);
    case Close(_) => OpenCloseTables(img, s, k, e, open, p, fd);
    case _ => CallTables(img, s, k, e, p, fd);
  }

  lemma ClocksAtStep(img: Image, cs: seq<Config>, es: seq<Event>, open: set<(int, int)>, n: nat)
    requires IsRun(img, cs, es) && n < |es| && ClocksAre(cs[n].s, open)
    ensures ClocksAre(cs[n + 1].s, OpenClocks(open, cs[n].s.current, es[n], cs[n + 1].out))
  {
    RunKeeps(img, cs, es, n);
    var now := OpenClocks(open, cs[n].s.current, es[n], cs[n + 1].out);
    forall p, fd ensures (p, fd) in now <==> IsClock(cs[n + 1].s, p, fd) {
      ClockTables(img, cs[n].s, cs[n].k, es[n], open, p, fd);
    }
  }

  /** In every run a slot carries the clock's table exactly when it was opened as a clock and not closed since. */
  lemma {:induction false} ClocksAreOpened(img: Image, cs: seq<Config>, es: seq<Event>, open: set<(int, int)>, n: nat)
    requires IsRun(img, cs, es) && n <= |es| && ClocksAre(cs[0].s, open)
    ensures ClocksAre(cs[n].s, OpenClocksAt(cs, es, open, n))
    decreases n
  {
    if n > 0 {
      ClocksAreOpened(img, cs, es, open, n - 1);
      ClocksAtStep(img, cs, es, OpenClocksAt(cs, es, open, n - 1), n - 1);
    }
  }

  /** What the kernel's entry leaves: the first shell, alone on terminal 0. */
  ghost predicate Booted(img: Image, c: Config) {
    && WellFormed(img) && Program(img, SHELL).Some? && c.k == [[0], [], []]
    && exists s, frame :: Initial(s) && c.s == Spawn(img, s, SHELL, 0, -1, frame).0
  }

  lemma BootedIsSound(img: Image, c: Config)
    requires Booted(img, c)
    ensures Sound(img, c) && ClocksAre(c.s, {})
  {
    var s, frame :| Initial(s) && c.s == Spawn(img, s, SHELL, 0, -1, frame).0;
    BootEstablishes(img, s, frame);
    forall p, fd ensures !IsClock(c.s, p, fd) { SpawnKeepsTables(img, s, SHELL, 0, -1, frame, p, fd); }
  }

  /** From boot on: the invariant holds with one stack per terminal, and the clocks are exactly the open ones. */
  lemma BootedRun(img: Image, cs: seq<Config>, es: seq<Event>, n: nat)
    requires |cs| == |es| + 1 && n <= |es| && Booted(img, cs[0]) && forall i: nat | 0 < i < |cs| :: FollowsAt(img, cs, es, i)
    ensures Sound(img, cs[n]) && ClocksAre(cs[n].s, OpenClocksAt(cs, es, {}, n))
  {
    BootedIsSound(img, cs[0]);
    assert FollowsAt(img, cs, es, 0);
    RunKeeps(img, cs, es, n);
    ClocksAreOpened(img, cs, es, {}, n);
  }
}
