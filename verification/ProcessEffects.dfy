/** What one step leaves alone, and what it does to clocks, descriptors and waiting terminals. */
module ProcessEffects {
  import opened Machine
  import opened FileSystem
  import opened Processes
  import opened ProcessStacks
  import opened ProcessSteps

  ghost predicate Can(img: Image, s: State, k: Stacks, e: Event) {
    Inv(img, s, k) && Program(img, SHELL).Some? && Admissible(e)
  }

  /** Links point down the stack: a process with a live child is not running. */
  lemma ParentIsBelow(img: Image, s: State, k: Stacks, c: int)
    requires Inv(img, s, k) && 0 <= c < PIDS && s.active[c] == 1 && s.pcbs[c].parent != -1
    ensures var p := s.pcbs[c].parent;
      0 <= p < PIDS && p != c && p != s.current && s.active[p] == 1 && s.pcbs[p].terminal == s.pcbs[c].terminal && !IsTop(s, p)
  {
    assert Placed(s, k, c);
    var t := s.pcbs[c].terminal;
    var i :| 0 <= i < |k[t]| && k[t][i] == c;
    assert LiveAt(s, t, k[t], i) && LiveAt(s, t, k[t], i - 1);
    CurrentIsTop(img, s, k);
    forall u | 0 <= u < TERMINALS ensures s.tops[u] != k[t][i - 1] {
      TopIsPid(s, u, k[u]);
    }
  }

  /** A tick counts down the clocks of the three tops; nothing else touches another process's descriptors. */
  function FdsAfter(s: State, e: Event, p: int): seq<Fd>
    requires |s.tops| == TERMINALS && 0 <= p < |s.pcbs|
  {
    if e.Tick? && IsTop(s, p) then CountedFds(s.pcbs[p].fds) else s.pcbs[p].fds
  }

  ghost predicate SameMemory(a: seq<byte>, b: seq<byte>, p: int) {
    |a| == |b| == PIDS * FRAME && 0 <= p < PIDS && forall i | p * FRAME <= i < (p + 1) * FRAME :: a[i] == b[i]
  }

  /** Creating a process changes no other process; the one that was running only gets its frame saved. */
  lemma SpawnLeaves(img: Image, g: State, command: seq<byte>, t: int, parent: int, frame: Context, p: int)
    requires WellFormed(img) && |g.active| == |g.pcbs| == PIDS && |g.memory| == PIDS * FRAME && |g.tops| == TERMINALS
    requires -1 <= g.current < PIDS && 0 <= t < TERMINALS && 0 <= p < PIDS && g.active[p] != -1
    ensures var n := Spawn(img, g, command, t, parent, frame).0;
      |n.active| == |n.pcbs| == PIDS && SameMemory(g.memory, n.memory, p) && n.active[p] == g.active[p]
      && n.pcbs[p] == g.pcbs[p].(context := if p == g.current then n.pcbs[p].context else g.pcbs[p].context)
  {
    var pid := FirstFree(g.active, 0);
    if pid != -1 && Program(img, command).Some? {
      var all := Contents(img, Program(img, command).value);
      var n := Spawn(img, g, command, t, parent, frame).0;
      forall i | p * FRAME <= i < (p + 1) * FRAME ensures n.memory[i] == g.memory[i] {
        assert pid < p || pid > p;
      }
    }
  }

  lemma TickLeaves(s: State, k: Stacks, frame: Context, p: int)
    requires Shape(s) && Linked(s, k) && Topped(s, k) && 0 <= p < PIDS
    ensures var n := TickStep(s, frame).0;
      n.active == s.active && n.memory == s.memory && |n.pcbs| == PIDS && n.tops == s.tops && n.started == s.started
      && n.pcbs[p] == s.pcbs[p].(fds := FdsAfter(s, Tick(frame), p),
                                 context := if p == s.current then n.pcbs[p].context else s.pcbs[p].context)
  {
    CountTopsEach(s, k, p);
    CountTopsShape(s.pcbs, s.tops, 0);
    RotateLeaves(s.(pcbs := CountTops(s.pcbs, s.tops, 0), count := QUANTUM), frame, 3, p);
  }

  lemma {:induction false} RotateLeaves(s: State, frame: Context, tries: nat, p: int)
    requires Shape(s) && 0 <= p < PIDS
    ensures var n := Rotate(s, frame, tries);
      n.active == s.active && n.memory == s.memory && |n.pcbs| == PIDS && n.tops == s.tops && n.started == s.started
      && n.pcbs[p] == s.pcbs[p].(context := if p == s.current then n.pcbs[p].context else s.pcbs[p].context)
    decreases tries
  {
    if tries > 0 {
      RotateLeaves(s.(index := (s.index + 1) % 3), frame, tries - 1, p);
    }
  }

  /** `n` differs from `s` in the running process's descriptors and memory frame only. */
  ghost predicate OnlyOwn(s: State, n: State) {
    && |s.pcbs| == |n.pcbs| == PIDS && |n.memory| == |s.memory| == PIDS * FRAME && 0 <= s.current < PIDS
    && n == s.(pcbs := n.pcbs, memory := n.memory)
    && (forall p | 0 <= p < PIDS && p != s.current :: n.pcbs[p] == s.pcbs[p] && SameMemory(s.memory, n.memory, p))
    && n.pcbs[s.current] == s.pcbs[s.current].(fds := n.pcbs[s.current].fds)
  }

  lemma StoreLeaves(s: State, offset: nat, value: byte)
    requires Shape(s) && offset < FRAME && s.page == 2 + s.current
    ensures OnlyOwn(s, StoreStep(s, offset, value).0)
  {
    forall p | 0 <= p < PIDS && p != s.current ensures SameMemory(s.memory, StoreStep(s, offset, value).0.memory, p) {
      assert p < s.current || p > s.current;
    }
  }

  lemma FdsLeave(s: State, fds: seq<Fd>)
    requires Shape(s)
    ensures OnlyOwn(s, WithFds(s, s.current, fds)) && OnlyOwn(s, s)
  {
  }

  /** A descriptor call or a user store changes only the running process's own descriptors and frame. */
  lemma DescriptorLeaves(img: Image, s: State, k: Stacks, e: Event)
    requires Can(img, s, k, e) && IsDescriptorEvent(e)
    ensures OnlyOwn(s, Step(img, s, e).0)
  {
    if e.Store? { StoreLeaves(s, e.offset, e.value); } else { FdsLeave(s, Step(img, s, e).0.pcbs[s.current].fds); }
  }

  lemma HaltLeaves(img: Image, s: State, k: Stacks, status: u32, p: int)
    requires Inv(img, s, k) && 0 <= p < PIDS && s.active[p] == 1 && p != s.current
    ensures var n := HaltStep(img, s, status).0;
      |n.active| == |n.pcbs| == PIDS && SameMemory(s.memory, n.memory, p) && n.active[p] == 1 && n.pcbs[p] == s.pcbs[p]
  {
    if s.pcbs[s.current].parent == -1 {
      var g := Gone(s).(current := -1);
      SpawnLeaves(img, g, SHELL, s.pcbs[s.current].terminal, -1, s.pcbs[s.current].context, p);
    }
  }

  lemma ExecuteLeaves(img: Image, s: State, k: Stacks, e: Event, p: int)
    requires Can(img, s, k, e) && e.Execute? && 0 <= p < PIDS && s.active[p] == 1
    ensures var n := ExecuteStep(img, s, e.command, e.frame).0;
      |n.active| == |n.pcbs| == PIDS && SameMemory(s.memory, n.memory, p) && n.active[p] == 1
      && n.pcbs[p] == s.pcbs[p].(context := if p == s.current then n.pcbs[p].context else s.pcbs[p].context)
  {
    SpawnLeaves(img, s, e.command, s.pcbs[s.current].terminal, s.current, e.frame, p);
  }

  lemma DisplayLeaves(img: Image, s: State, k: Stacks, e: Event, p: int)
    requires Can(img, s, k, e) && e.Display? && 0 <= p < PIDS && s.active[p] == 1
    ensures var n := DisplayStep(img, s, e.terminal, e.frame).0;
      |n.active| == |n.pcbs| == PIDS && SameMemory(s.memory, n.memory, p) && n.active[p] == 1
      && n.pcbs[p] == s.pcbs[p].(context := if p == s.current then n.pcbs[p].context else s.pcbs[p].context)
  {
    var g := s.(shown := e.terminal, started := s.started[e.terminal := true]);
    SpawnLeaves(img, g, SHELL, e.terminal, -1, e.frame, p);
  }

  /** No step touches the frame, links, arguments or memory of a live process that is not running. */
  lemma StepLeaves(img: Image, s: State, k: Stacks, e: Event, p: int)
    requires Can(img, s, k, e) && 0 <= p < PIDS && s.active[p] == 1 && p != s.current
    ensures var n := Step(img, s, e).0;
      |n.active| == |n.pcbs| == PIDS && n.active[p] == 1
      && n.pcbs[p] == s.pcbs[p].(fds := FdsAfter(s, e, p)) && SameMemory(s.memory, n.memory, p)
  {
    if e.Execute? { ExecuteLeaves(img, s, k, e, p); }
    else if e.Halt? { HaltLeaves(img, s, k, e.status, p); }
    else if e.Tick? { TickLeaves(s, k, e.frame, p); }
    else if e.Display? { DisplayLeaves(img, s, k, e, p); }
    else { DescriptorLeaves(img, s, k, e); }
  }

  /** The running process survives every event but its own halt; only its own calls change its descriptors. */
  lemma RunningSurvives(img: Image, s: State, k: Stacks, e: Event)
    requires Can(img, s, k, e) && !e.Halt?
    ensures var n := Step(img, s, e).0;
      |n.active| == |n.pcbs| == PIDS && n.active[s.current] == 1
      && n.pcbs[s.current] == s.pcbs[s.current].(context := n.pcbs[s.current].context,
           fds := if IsDescriptorEvent(e) then n.pcbs[s.current].fds else FdsAfter(s, e, s.current))
  {
    CurrentIsTop(img, s, k);
    if e.Execute? { ExecuteLeaves(img, s, k, e, s.current); }
    else if e.Tick? { TickLeaves(s, k, e.frame, s.current); }
    else if e.Display? { DisplayLeaves(img, s, k, e, s.current); }
    else { DescriptorLeaves(img, s, k, e); }
  }

  /** An interrupt or an execute that takes the processor from a process saves its frame. */
  lemma PreemptionSaves(img: Image, s: State, k: Stacks, e: Event)
    requires Can(img, s, k, e) && (e.Tick? || e.Display? || e.Execute?) && Step(img, s, e).0.current != s.current
    ensures var n := Step(img, s, e).0; |n.pcbs| == PIDS && n.pcbs[s.current].context == e.frame
  {
    CurrentIsTop(img, s, k);
    if e.Tick? { CountTopsShape(s.pcbs, s.tops, 0); }
  }

  lemma ExecuteLinks(img: Image, s: State, k: Stacks, command: seq<byte>, frame: Context)
    requires Can(img, s, k, Execute(command, frame)) && Step(img, s, Execute(command, frame)).1.Started?
    ensures var n := Step(img, s, Execute(command, frame)).0;
      var c := FirstFree(s.active, 0);
      n.current == c && 0 <= c < PIDS && c != s.current && |n.pcbs| == |n.active| == PIDS
      && n.active[c] == 1 && n.pcbs[c].parent == s.current && n.pcbs[s.current].context == frame
      && n.pcbs[c].args == CommandArgs(command)
  {
    CurrentIsTop(img, s, k);
  }

  /** The whole file lies where the loader puts it in the frame that directory entry 32 maps. */
  ghost predicate LoadedAt(s: State, all: seq<byte>) {
    var base := 0x40_0000 * (s.page - 2) + 0x4_8000;
    0 <= base && base + |all| <= |s.memory| && s.memory[base..base + |all|] == all
  }

  lemma CreatedIsLoaded(img: Image, s: State, inode: u32, pid: int, t: int, parent: int, args: seq<byte>, frame: Context)
    requires HasFile(img, inode) && 0 <= pid < PIDS && |s.active| == |s.pcbs| == PIDS && |s.memory| == PIDS * FRAME
    requires -1 <= s.current < PIDS && |s.tops| == TERMINALS && 0 <= t < TERMINALS
    ensures LoadedAt(Launched(Created(img, s, inode, pid, t, parent, args), pid, frame), Contents(img, inode))
  {
    OverwriteHolds(s.memory, pid * FRAME + LOAD_OFFSET, Contents(img, inode));
  }

  /** A new program finds its whole file in its own memory. */
  lemma ExecuteLoads(img: Image, s: State, k: Stacks, command: seq<byte>, frame: Context)
    requires Inv(img, s, k) && ExecuteStep(img, s, command, frame).1.Started?
    ensures Program(img, command).Some?
      && LoadedAt(ExecuteStep(img, s, command, frame).0, Contents(img, Program(img, command).value))
  {
    var pid, t := FirstFree(s.active, 0), s.pcbs[s.current].terminal;
    CreatedIsLoaded(img, s, Program(img, command).value, pid, t, s.current, CommandArgs(command), frame);
  }

  lemma HaltResumesParent(img: Image, s: State, k: Stacks, status: u32)
    requires Inv(img, s, k) && s.pcbs[s.current].parent != -1
    ensures var p := s.pcbs[s.current].parent;
      0 <= p < PIDS && HaltStep(img, s, status).1 == Resumed(p, s.pcbs[p].context, status)
  {
    CurrentIsTop(img, s, k);
    HaltPops(img, s, k, status);
  }

  // ----- fairness

  function CurrentTerminal(s: State): int
    requires Shape(s)
  {
    s.pcbs[s.current].terminal
  }

  /** How many terminals the round robin visits until it reaches t. */
  function Distance(s: State, t: int): int {
    if t > s.index then t - s.index else t - s.index + TERMINALS
  }

  /** An upper bound on the ticks until terminal t runs. */
  function Patience(s: State, t: int): int {
    (if s.count <= 1 then 1 else s.count) + QUANTUM * (Distance(s, t) - 1)
  }

  lemma {:induction false} RotateApproaches(s: State, frame: Context, tries: nat, t: int)
    requires Shape(s) && 0 <= t < TERMINALS && s.tops[t] != -1 && s.tops[t] != s.current && Distance(s, t) <= tries
    ensures var n := Rotate(s, frame, tries);
      n.count == s.count && 0 <= n.index < TERMINALS && (n.current == s.tops[t] || Distance(n, t) < Distance(s, t))
    decreases tries
  {
    var next := s.(index := (s.index + 1) % 3);
    if next.index != t { RotateApproaches(next, frame, tries - 1, t); }
  }

  lemma TopRuns(img: Image, s: State, k: Stacks, t: int)
    requires Inv(img, s, k) && 0 <= t < TERMINALS && s.tops[t] != -1
    ensures s.current == s.tops[t] <==> CurrentTerminal(s) == t
  {
    TopIsPid(s, t, k[t]);
  }

  /** Each tick brings a waiting terminal nearer. */
  lemma TickApproaches(img: Image, s: State, k: Stacks, frame: Context, t: int)
    requires Inv(img, s, k) && 0 <= t < TERMINALS && s.started[t] && CurrentTerminal(s) != t
    ensures var n := TickStep(s, frame).0;
      Inv(img, n, k) && n.started == s.started && (CurrentTerminal(n) == t || Patience(n, t) < Patience(s, t))
  {
    var n := TickStep(s, frame).0;
    TickKeeps(img, s, k, frame);
    TickLeaves(s, k, frame, s.current);
    TopIsPid(s, t, k[t]);
    TopRuns(img, s, k, t);
    TopRuns(img, n, k, t);
    if s.count <= 1 {
      CountTopsShape(s.pcbs, s.tops, 0);
      RotateApproaches(s.(pcbs := CountTops(s.pcbs, s.tops, 0), count := QUANTUM), frame, 3, t);
    }
  }

  /** Only ticks move the round robin, and a started terminal stays started. */
  lemma OthersKeepPatience(img: Image, s: State, k: Stacks, e: Event)
    requires Can(img, s, k, e) && !e.Tick?
    ensures var n := Step(img, s, e).0;
      n.count == s.count && n.index == s.index && |n.started| == TERMINALS
      && forall t | 0 <= t < TERMINALS :: s.started[t] ==> n.started[t]
  {
    if IsDescriptorEvent(e) { DescriptorLeaves(img, s, k, e); }
  }

  // ----- clocks

  function Remaining(pos: nat, ticks: nat): nat {
    if pos > ticks then pos - ticks else 0
  }

  /** A step other than a tick changes at most the top of the running process's terminal, or of a new one. */
  lemma TopsAfter(img: Image, s: State, k: Stacks, e: Event, t: int)
    requires Can(img, s, k, e) && 0 <= t < TERMINALS && s.tops[t] != -1 && CurrentTerminal(s) != t
    ensures |Step(img, s, e).0.tops| == TERMINALS && Step(img, s, e).0.tops[t] == s.tops[t]
  {
    if e.Tick? { TickLeaves(s, k, e.frame, s.current); }
    else if IsDescriptorEvent(e) { DescriptorLeaves(img, s, k, e); }
    else if e.Halt? { HaltTops(img, s, k, e.status, t); }
  }

  lemma SpawnTops(img: Image, g: State, command: seq<byte>, t: int, parent: int, frame: Context, u: int)
    requires WellFormed(img) && |g.active| == |g.pcbs| == PIDS && |g.memory| == PIDS * FRAME && |g.tops| == TERMINALS
    requires -1 <= g.current < PIDS && 0 <= t < TERMINALS && 0 <= u < TERMINALS && u != t
    ensures var n := Spawn(img, g, command, t, parent, frame).0; |n.tops| == TERMINALS && n.tops[u] == g.tops[u]
  {
  }

  lemma ReturnTops(img: Image, s: State, status: u32, t: int)
    requires WellFormed(img) && Shape(s) && 0 <= t < TERMINALS
    requires var p := s.pcbs[s.current].parent; p != -1 && p != s.current && s.pcbs[p].terminal != t
    ensures |HaltStep(img, s, status).0.tops| == TERMINALS && HaltStep(img, s, status).0.tops[t] == s.tops[t]
  {
  }

  lemma HaltTops(img: Image, s: State, k: Stacks, status: u32, t: int)
    requires Inv(img, s, k) && 0 <= t < TERMINALS && CurrentTerminal(s) != t
    ensures |HaltStep(img, s, status).0.tops| == TERMINALS && HaltStep(img, s, status).0.tops[t] == s.tops[t]
  {
    CurrentIsTop(img, s, k);
    var me := s.pcbs[s.current];
    if me.parent == -1 {
      SpawnTops(img, Gone(s).(current := -1), SHELL, me.terminal, -1, me.context, t);
    } else {
      ParentIsBelow(img, s, k, s.current);
      ReturnTops(img, s, status, t);
    }
  }

  /** A blocked top stays the top of its terminal. */
  lemma BlockedStaysTop(img: Image, s: State, k: Stacks, e: Event, t: int, p: int)
    requires Can(img, s, k, e) && 0 <= t < TERMINALS && s.tops[t] == p && p != -1
    requires s.current == p ==> e.Tick? || e.Display?
    ensures |Step(img, s, e).0.tops| == TERMINALS && Step(img, s, e).0.tops[t] == p
  {
    TopRuns(img, s, k, t);
    if CurrentTerminal(s) != t { TopsAfter(img, s, k, e, t); }
    else if e.Tick? { TickLeaves(s, k, e.frame, s.current); }
    else { TopIsPid(s, t, k[t]); }
  }

  /** What interrupts do to the descriptors of a live process that makes no call. */
  lemma BlockedFds(img: Image, s: State, k: Stacks, e: Event, p: int)
    requires Can(img, s, k, e) && 0 <= p < PIDS && s.active[p] == 1
    requires s.current == p ==> e.Tick? || e.Display?
    ensures |Step(img, s, e).0.pcbs| == PIDS && Step(img, s, e).0.pcbs[p].fds == FdsAfter(s, e, p)
  {
    if p == s.current { RunningSurvives(img, s, k, e); } else { StepLeaves(img, s, k, e, p); }
  }

  lemma ClockSlot(s: State, e: Event, p: int, fd: int)
    requires Shape(s) && 0 <= p < PIDS && IsTop(s, p) && 2 <= fd < SLOTS && s.pcbs[p].fds[fd].table == RtcTable
    ensures var slot := s.pcbs[p].fds[fd];
      |FdsAfter(s, e, p)| == SLOTS && FdsAfter(s, e, p)[fd] == slot.(pos := Remaining(slot.pos, if e.Tick? then 1 else 0))
  {
    assert PcbShape(s.pcbs[p]);
  }

  /** A descriptor above 1 that carries the clock's table. */
  predicate IsClock(s: State, p: int, fd: int) {
    0 <= p < |s.pcbs| && 2 <= fd < |s.pcbs[p].fds| && s.pcbs[p].fds[fd].table == RtcTable
  }

  /** Process p is the top of terminal t and its descriptor fd is a clock with `pos` ticks to go. */
  ghost predicate ClockAt(s: State, t: int, p: int, fd: int, pos: int) {
    && |s.tops| == TERMINALS && 0 <= t < TERMINALS && s.tops[t] == p
    && |s.pcbs| == PIDS && 0 <= p < PIDS && 2 <= fd < |s.pcbs[p].fds| == SLOTS
    && s.pcbs[p].fds[fd].table == RtcTable && s.pcbs[p].fds[fd].pos == pos
  }

  lemma ClockStep(img: Image, s: State, k: Stacks, e: Event, t: int, p: int, fd: int, pos: nat)
    requires Can(img, s, k, e) && ClockAt(s, t, p, fd, pos)
    requires s.current == p ==> e.Tick? || e.Display?
    ensures ClockAt(Step(img, s, e).0, t, p, fd, Remaining(pos, if e.Tick? then 1 else 0))
  {
    TopIsPid(s, t, k[t]);
    ClockSlot(s, e, p, fd);
    BlockedStaysTop(img, s, k, e, t, p);
    BlockedFds(img, s, k, e, p);
  }

  // ----- files and directories

  /** Slot `after` is file slot `slot` moved past `bytes`, which are the file's bytes from its position on. */
  ghost predicate Advanced(img: Image, slot: Fd, bytes: seq<byte>, after: Fd) {
    && HasFile(img, slot.inode) && slot.pos + |bytes| <= |Contents(img, slot.inode)|
    && bytes == Contents(img, slot.inode)[slot.pos..slot.pos + |bytes|]
    && after == Fd(slot.table, slot.inode, slot.pos + |bytes|, slot.flags)
  }

  lemma AdvancedTwice(img: Image, slot: Fd, a: seq<byte>, mid: Fd, b: seq<byte>, after: Fd)
    requires Advanced(img, slot, a, mid) && Advanced(img, mid, b, after)
    ensures Advanced(img, slot, a + b, after)
  {
    var all := Contents(img, slot.inode);
    assert all[slot.pos..mid.pos] + all[mid.pos..after.pos] == all[slot.pos..after.pos];
  }

  /** A descriptor that is open on a file or a directory in a live process. */
  ghost predicate OpenAt(s: State, p: int, fd: int, table: Table) {
    && |s.active| == |s.pcbs| == PIDS && 0 <= p < PIDS && s.active[p] == 1 && 2 <= fd < SLOTS == |s.pcbs[p].fds|
    && s.pcbs[p].fds[fd].table == table && s.pcbs[p].fds[fd].inode != UNUSED
  }

  /** p's own read of fd. */
  predicate IsReadOf(current: int, e: Event, p: int, fd: int) {
    current == p && e.Read? && e.fd == fd
  }

  /** p neither halts nor closes descriptor fd in this step. */
  predicate KeepsOpen(current: int, e: Event, p: int, fd: int) {
    current == p ==> !e.Halt? && e != Close(fd)
  }

  lemma OtherCall(img: Image, s: State, k: Stacks, e: Event, fd: int, table: Table)
    requires Can(img, s, k, e) && IsDescriptorEvent(e) && e != Close(fd) && !(e.Read? && e.fd == fd)
    requires OpenAt(s, s.current, fd, table) && table in {FileTable, DirectoryTable}
    ensures var n := Step(img, s, e).0;
      |n.pcbs| == PIDS && |n.pcbs[s.current].fds| == SLOTS && n.pcbs[s.current].fds[fd] == s.pcbs[s.current].fds[fd]
  {
    match e
    case Read(_, _) =>
    case Open(_) =>
    case Close(_) =>
    case Write(_, _, _) =>
    case Store(_, _) =>
  }

  /** Only its owner's reads, its close and its owner's halt change an open file or directory slot. */
  lemma SlotStays(img: Image, s: State, k: Stacks, e: Event, p: int, fd: int, table: Table)
    requires Can(img, s, k, e) && OpenAt(s, p, fd, table) && table in {FileTable, DirectoryTable}
    requires KeepsOpen(s.current, e, p, fd) && !IsReadOf(s.current, e, p, fd)
    ensures OpenAt(Step(img, s, e).0, p, fd, table) && Step(img, s, e).0.pcbs[p].fds[fd] == s.pcbs[p].fds[fd]
  {
    if p != s.current { StepLeaves(img, s, k, e, p); }
    else {
      RunningSurvives(img, s, k, e);
      if IsDescriptorEvent(e) { OtherCall(img, s, k, e, fd, table); }
    }
  }

  /** What a read of a file delivers, and where it leaves the position. */
  lemma FileReadAdvances(img: Image, s: State, k: Stacks, fd: int, nbytes: int)
    requires Inv(img, s, k) && OpenAt(s, s.current, fd, FileTable)
    ensures var (n, out) := ReadStep(img, s, fd, nbytes);
      OpenAt(n, s.current, fd, FileTable)
      && Advanced(img, s.pcbs[s.current].fds[fd], if out.Delivered? then out.bytes else [], n.pcbs[s.current].fds[fd])
      && if nbytes <= 0 then out == Returned(-1)
         else out.Delivered? && |out.bytes| <= nbytes
              && (|out.bytes| < nbytes ==> n.pcbs[s.current].fds[fd].pos == |Contents(img, s.pcbs[s.current].fds[fd].inode)|)
  {
    OpenSlotIsSound(img, s, k, fd);
    var slot := s.pcbs[s.current].fds[fd];
    if nbytes > 0 { SliceIsPiece(Contents(img, slot.inode), slot.pos, nbytes); }
  }

  lemma FileSlotSound(img: Image, s: State, k: Stacks, p: int, fd: int)
    requires Inv(img, s, k) && OpenAt(s, p, fd, FileTable)
    ensures Advanced(img, s.pcbs[p].fds[fd], [], s.pcbs[p].fds[fd])
  {
    assert FdsSound(img, s.pcbs[p].fds, true);
    assert SlotSound(img, s.pcbs[p].fds[fd], true);
  }

  /** What a directory read at a position answers: that entry's name, cut to the caller's size. */
  function EntryName(img: Image, pos: nat, nbytes: nat): Output
    requires |img.entries| == ENTRIES
  {
    if pos >= 63 then Returned(-1)
    else var name := CString(img.entries[pos].name); Delivered(name[..Min(nbytes, |name|)])
  }

  lemma DirectoryReadAdvances(img: Image, s: State, k: Stacks, fd: int, nbytes: int)
    requires Inv(img, s, k) && OpenAt(s, s.current, fd, DirectoryTable)
    ensures var (n, out), slot := ReadStep(img, s, fd, nbytes), s.pcbs[s.current].fds[fd];
      OpenAt(n, s.current, fd, DirectoryTable)
      && (if nbytes < 0 then out == Returned(-1) && n.pcbs[s.current].fds[fd] == slot
          else out == EntryName(img, slot.pos, nbytes)
               && n.pcbs[s.current].fds[fd] == slot.(pos := if slot.pos < ENTRIES then slot.pos + 1 else slot.pos))
  {
  }

  /** An opened directory is read from its first entry. */
  lemma OpenFindsDirectory(img: Image, s: State, k: Stacks, name: seq<byte>, fd: int)
    requires Can(img, s, k, Open(name)) && !IsRtcName(name) && IsDotName(name)
    requires Step(img, s, Open(name)).1 == Returned(fd) && fd != -1
    ensures var n := Step(img, s, Open(name)).0;
      n.current == s.current && OpenAt(n, s.current, fd, DirectoryTable) && n.pcbs[s.current].fds[fd].pos == 0
  {
    CurrentIsTop(img, s, k);
    var e := FindFrom(img.entries, name, 0);
    assert WellFormedEntry(img.entries[e], |img.inodes|);
  }

  /** An opened file is the first entry of that name, read from its beginning. */
  lemma OpenFindsFile(img: Image, s: State, k: Stacks, name: seq<byte>, fd: int)
    requires Can(img, s, k, Open(name)) && !IsRtcName(name) && !IsDotName(name)
    requires Step(img, s, Open(name)).1 == Returned(fd) && fd != -1
    ensures var n, e := Step(img, s, Open(name)).0, FindFrom(img.entries, name, 0);
      e != -1 && n.current == s.current && OpenAt(n, s.current, fd, FileTable)
      && HasFile(img, img.entries[e].inode) && n.pcbs[s.current].fds[fd] == Fd(FileTable, img.entries[e].inode, 0, 0)
  {
    CurrentIsTop(img, s, k);
    var e := FindFrom(img.entries, name, 0);
    assert WellFormedEntry(img.entries[e], |img.inodes|);
  }

  lemma SetTwice(s: State, p: int, fd: int, slot: Fd, closed: Fd)
    requires 0 <= p < |s.pcbs| && 0 <= fd < |s.pcbs[p].fds|
    ensures var n := WithFds(s, p, s.pcbs[p].fds[fd := slot]);
      WithFds(n, p, n.pcbs[p].fds[fd := closed]) == WithFds(s, p, s.pcbs[p].fds[fd := closed])
  {
    var n, fds := WithFds(s, p, s.pcbs[p].fds[fd := slot]), s.pcbs[p].fds[fd := closed];
    assert n.pcbs[p].fds[fd := closed] == fds;
    assert n.pcbs[p := s.pcbs[p].(fds := fds)] == s.pcbs[p := s.pcbs[p].(fds := fds)];
  }

  /** close undoes open: the slot is closed again as it was before, and nothing else has changed. */
  lemma CloseUndoesOpen(img: Image, s: State, k: Stacks, name: seq<byte>, fd: int)
    requires Inv(img, s, k) && IsText(name) && OpenStep(img, s, name).1 == Returned(fd) && fd != -1
    ensures var n := OpenStep(img, s, name).0;
      Shape(n) && 2 <= fd < SLOTS && |s.pcbs[s.current].fds| == SLOTS
      && var (m, out) := CloseStep(n, fd);
         out == Returned(0) && |m.pcbs| == PIDS && |m.pcbs[s.current].fds| == SLOTS
         && s.pcbs[s.current].fds[fd].inode == UNUSED && m.pcbs[s.current].fds[fd].inode == UNUSED
         && m == WithFds(s, s.current, s.pcbs[s.current].fds[fd := m.pcbs[s.current].fds[fd]])
  {
    var e := FindFrom(img.entries, name, 0);
    if e != -1 { assert WellFormedEntry(img.entries[e], |img.inodes|); }
    OpenKeeps(img, s, k, name);
    assert PcbShape(s.pcbs[s.current]);
    var slot := Opening(img, name).value;
    SetTwice(s, s.current, fd, slot, ClosedFd(slot));
  }
}
