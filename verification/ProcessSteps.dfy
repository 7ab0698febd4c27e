/**
 * Every step keeps the stack invariant, and what each step does to the stacks: a start pushes, the halt of a
 * child pops, the halt of a base shell replaces, and everything else leaves them as they are.
 */
module ProcessSteps {
  import opened Machine
  import opened FileSystem
  import opened RtcRate
  import opened Processes
  import opened ProcessStacks

  // ----- creating a process

  /** A kernel about to create a process on terminal t: everything but t's own top is in order. */
  ghost predicate Spawning(img: Image, g: State, k: Stacks, t: int) {
    && WellFormed(img) && |g.active| == |g.pcbs| == PIDS && |g.tops| == |g.started| == TERMINALS
    && |g.memory| == PIDS * FRAME && -1 <= g.current < PIDS
    && 0 <= g.index < TERMINALS && 0 <= g.count <= QUANTUM && 0 <= g.shown < TERMINALS
    && (forall p | 0 <= p < PIDS :: PcbShape(g.pcbs[p]))
    && Linked(g, k) && Described(img, g) && 0 <= t < TERMINALS && g.started[t]
    && forall u | 0 <= u < TERMINALS && u != t :: g.tops[u] == TopOf(k[u]) && (g.started[u] <==> k[u] != [])
  }

  lemma FreshFdsSound(img: Image, fds: seq<Fd>)
    requires FdsSound(img, fds, false)
    ensures FdsSound(img, FreshFds(fds), true)
  {
    var n := FreshFds(fds);
    forall i | 2 <= i < SLOTS ensures SlotSound(img, n[i], true) {
      assert SlotSound(img, fds[i], false);
    }
  }

  /** The process tables after a successful creation. */
  lemma SpawnTables(img: Image, g: State, k: Stacks, inode: u32, pid: int, t: int, args: seq<byte>, frame: Context)
    requires Spawning(img, g, k, t) && HasFile(img, inode) && 0 <= pid < PIDS && g.active[pid] == -1
    ensures var n := Launched(Created(img, g, inode, pid, t, TopOf(k[t]), args), pid, frame);
      && Linked(n, k[t := k[t] + [pid]]) && Described(img, n)
      && forall p | 0 <= p < PIDS :: PcbShape(n.pcbs[p]) && Resolved(img, n.pcbs[p].fds)
  {
    var n := Launched(Created(img, g, inode, pid, t, TopOf(k[t]), args), pid, frame);
    PushLinked(g, n, k, t, pid);
    TopIsPid(g, t, k[t]);
    FreshFdsSound(img, g.pcbs[pid].fds);
    forall p | 0 <= p < PIDS
      ensures FdsSound(img, n.pcbs[p].fds, n.active[p] == 1) && PcbShape(n.pcbs[p]) && Resolved(img, n.pcbs[p].fds)
    {
      assert FdsSound(img, g.pcbs[p].fds, g.active[p] == 1) && PcbShape(g.pcbs[p]);
      FdsResolve(img, n.pcbs[p].fds, n.active[p] == 1);
    }
  }

  /** Sizes, ranges and resolvable descriptors after a successful creation. */
  lemma SpawnUsable(img: Image, g: State, k: Stacks, inode: u32, pid: int, t: int, args: seq<byte>, frame: Context)
    requires Spawning(img, g, k, t) && HasFile(img, inode) && 0 <= pid < PIDS && g.active[pid] == -1
    ensures Usable(img, Launched(Created(img, g, inode, pid, t, TopOf(k[t]), args), pid, frame))
  {
    SpawnTables(img, g, k, inode, pid, t, args, frame);
    TopsInRange(g, k);
  }

  /** Tops and cached pointers after a successful creation. */
  lemma SpawnHome(img: Image, g: State, k: Stacks, inode: u32, pid: int, t: int, args: seq<byte>, frame: Context)
    requires Spawning(img, g, k, t) && HasFile(img, inode) && 0 <= pid < PIDS && g.active[pid] == -1
    ensures var n := Launched(Created(img, g, inode, pid, t, TopOf(k[t]), args), pid, frame);
      Topped(n, k[t := k[t] + [pid]]) && Home(n)
  {
  }

  lemma LaunchKeeps(img: Image, g: State, k: Stacks, inode: u32, pid: int, t: int, args: seq<byte>, frame: Context)
    requires Spawning(img, g, k, t) && HasFile(img, inode) && 0 <= pid < PIDS && g.active[pid] == -1
    ensures Inv(img, Launched(Created(img, g, inode, pid, t, TopOf(k[t]), args), pid, frame), k[t := k[t] + [pid]])
  {
    SpawnTables(img, g, k, inode, pid, t, args, frame);
    SpawnUsable(img, g, k, inode, pid, t, args, frame);
    SpawnHome(img, g, k, inode, pid, t, args, frame);
  }

  lemma SpawnKeeps(img: Image, g: State, k: Stacks, command: seq<byte>, t: int, frame: Context)
    requires Spawning(img, g, k, t)
    ensures var (n, pid) := Spawn(img, g, command, t, TopOf(k[t]), frame);
      if pid == -1 then n == g && (Program(img, command).None? || FirstFree(g.active, 0) == -1)
      else 0 <= pid < PIDS && pid == FirstFree(g.active, 0) && Inv(img, n, k[t := k[t] + [pid]])
  {
    var pid := FirstFree(g.active, 0);
    if pid != -1 && Program(img, command).Some? {
      LaunchKeeps(img, g, k, Program(img, command).value, pid, t, CommandArgs(command), frame);
    }
  }

  lemma ShellFits()
    ensures FitsBuffers(SHELL)
  {
    assert SpaceAt(SHELL, 5) == 5;
    assert SpaceAt(SHELL, 4) == 5;
    assert SpaceAt(SHELL, 3) == 5;
    assert SpaceAt(SHELL, 2) == 5;
    assert SpaceAt(SHELL, 1) == 5;
  }

  lemma FdsResolve(img: Image, fds: seq<Fd>, live: bool)
    requires FdsSound(img, fds, live)
    ensures Resolved(img, fds)
  {
    forall i | 0 <= i < |fds| && fds[i].table == FileTable && fds[i].inode != UNUSED ensures HasFile(img, fds[i].inode) {
      if i >= 2 { assert SlotSound(img, fds[i], live); }
    }
  }

  lemma TopsInRange(s: State, k: Stacks)
    requires Linked(s, k)
    ensures forall t | 0 <= t < TERMINALS :: -1 <= TopOf(k[t]) < PIDS
  {
    forall t | 0 <= t < TERMINALS ensures -1 <= TopOf(k[t]) < PIDS { TopIsPid(s, t, k[t]); }
  }

  /** execute pushes the new process on the caller's stack, or changes nothing at all. */
  lemma ExecuteKeeps(img: Image, s: State, k: Stacks, command: seq<byte>, frame: Context)
    requires Inv(img, s, k)
    ensures var (n, out) := ExecuteStep(img, s, command, frame);
      var t := s.pcbs[s.current].terminal;
      if Program(img, command).Some? && FirstFree(s.active, 0) != -1
      then out == Started(FirstFree(s.active, 0)) && Inv(img, n, k[t := k[t] + [FirstFree(s.active, 0)]])
      else n == s && out == Returned(-1)
  {
    CurrentIsTop(img, s, k);
    SpawnKeeps(img, s, k, command, s.pcbs[s.current].terminal, frame);
  }

  // ----- halting

  lemma ClosedAllSound(img: Image, fds: seq<Fd>)
    requires FdsSound(img, fds, true)
    ensures FdsSound(img, ClosedAll(fds), false) && FdsSound(img, ClosedAll(fds), true)
    ensures forall i | 2 <= i < SLOTS :: ClosedAll(fds)[i].inode == UNUSED && ClosedAll(fds)[i].table != RtcTable
  {
    var n := ClosedAll(fds);
    forall i | 2 <= i < SLOTS
      ensures n[i].inode == UNUSED && n[i].table != RtcTable && SlotSound(img, n[i], false) && SlotSound(img, n[i], true)
    {
      assert SlotSound(img, fds[i], true);
    }
  }

  /** A live process never has an open slot without a usable table, so halt's close calls are all defined. */
  lemma HaltClosesThroughRealTables(img: Image, s: State, k: Stacks, i: int)
    requires Inv(img, s, k) && 2 <= i < SLOTS && s.pcbs[s.owner].fds[i].inode != UNUSED
    ensures s.pcbs[s.owner].fds[i].table in {RtcTable, FileTable, DirectoryTable}
  {
    CurrentIsTop(img, s, k);
    assert FdsSound(img, s.pcbs[s.owner].fds, true);
    assert SlotSound(img, s.pcbs[s.owner].fds[i], true);
  }

  /** The state between closing a process's files and picking its successor. */
  ghost function Gone(s: State): State
    requires Shape(s)
  {
    WithFds(s, s.owner, ClosedAll(s.pcbs[s.owner].fds)).(active := s.active[s.current := -1])
  }

  lemma GoneKeeps(img: Image, s: State, k: Stacks)
    requires Inv(img, s, k)
    ensures var t := s.pcbs[s.current].terminal;
      k[t] != [] && Linked(Gone(s), k[t := k[t][..|k[t]| - 1]]) && Described(img, Gone(s))
      && forall p | 0 <= p < PIDS :: PcbShape(Gone(s).pcbs[p]) && Resolved(img, Gone(s).pcbs[p].fds)
  {
    var t := s.pcbs[s.current].terminal;
    var g := Gone(s);
    CurrentIsTop(img, s, k);
    TopIsPid(s, t, k[t]);
    PopLinked(s, g, k, t);
    ClosedAllSound(img, s.pcbs[s.current].fds);
    forall p | 0 <= p < PIDS
      ensures FdsSound(img, g.pcbs[p].fds, g.active[p] == 1) && PcbShape(g.pcbs[p]) && Resolved(img, g.pcbs[p].fds)
    {
      assert FdsSound(img, s.pcbs[p].fds, s.active[p] == 1) && PcbShape(s.pcbs[p]);
      FdsResolve(img, g.pcbs[p].fds, g.active[p] == 1);
    }
  }

  /** halt of a child pops its stack and resumes the process below with that process's own saved frame. */
  lemma HaltPops(img: Image, s: State, k: Stacks, status: u32)
    requires Inv(img, s, k) && |k[s.pcbs[s.current].terminal]| > 1
    ensures var (n, out) := HaltStep(img, s, status);
      var t := s.pcbs[s.current].terminal;
      var below := k[t][|k[t]| - 2];
      0 <= below < PIDS && out == Resumed(below, s.pcbs[below].context, status) && Inv(img, n, k[t := k[t][..|k[t]| - 1]])
  {
    var t := s.pcbs[s.current].terminal;
    var (n, out) := HaltStep(img, s, status);
    var k' := k[t := k[t][..|k[t]| - 1]];
    CurrentIsTop(img, s, k);
    GoneKeeps(img, s, k);
    assert LiveAt(s, t, k[t], |k[t]| - 2);
    LinksKeepStacks(Gone(s), n, k');
    TopsInRange(n, k');
  }

  lemma GoneSpawning(img: Image, s: State, k: Stacks)
    requires Inv(img, s, k) && |k[s.pcbs[s.current].terminal]| == 1
    ensures Spawning(img, Gone(s).(current := -1), k[s.pcbs[s.current].terminal := []], s.pcbs[s.current].terminal)
  {
    var t := s.pcbs[s.current].terminal;
    GoneKeeps(img, s, k);
    assert k[t][..|k[t]| - 1] == [];
    LinksKeepStacks(Gone(s), Gone(s).(current := -1), k[t := []]);
  }

  /** halt of a base shell replaces the whole stack by a new shell. */
  lemma HaltRestarts(img: Image, s: State, k: Stacks, status: u32)
    requires Inv(img, s, k) && |k[s.pcbs[s.current].terminal]| == 1 && Program(img, SHELL).Some?
    ensures var (n, out) := HaltStep(img, s, status);
      var t := s.pcbs[s.current].terminal;
      var shell := FirstFree(s.active[s.current := -1], 0);
      0 <= shell <= s.current && out == Started(shell) && Inv(img, n, k[t := [shell]])
  {
    var t := s.pcbs[s.current].terminal;
    CurrentIsTop(img, s, k);
    GoneSpawning(img, s, k);
    var g, k0 := Gone(s).(current := -1), k[t := []];
    var shell := FirstFree(g.active, 0);
    assert g.active[s.current] == -1;
    SpawnKeeps(img, g, k0, SHELL, t, s.pcbs[s.current].context);
    assert k0[t] + [shell] == [shell];
    assert k0[t := [shell]] == k[t := [shell]];
  }

  // ----- descriptor system calls

  /** A descriptor call replaces the running process's table by another sound one. */
  lemma TableKeeps(img: Image, s: State, k: Stacks, fds: seq<Fd>)
    requires Inv(img, s, k) && FdsSound(img, fds, true)
    ensures Inv(img, WithFds(s, s.owner, fds), k)
  {
    var n := WithFds(s, s.owner, fds);
    CurrentIsTop(img, s, k);
    LinksKeepStacks(s, n, k);
    FdsResolve(img, fds, true);
    forall p | 0 <= p < PIDS
      ensures FdsSound(img, n.pcbs[p].fds, n.active[p] == 1) && PcbShape(n.pcbs[p]) && Resolved(img, n.pcbs[p].fds)
    {
      assert FdsSound(img, s.pcbs[p].fds, s.active[p] == 1) && PcbShape(s.pcbs[p]);
    }
  }

  lemma SlotKeeps(img: Image, s: State, k: Stacks, fd: int, slot: Fd)
    requires Inv(img, s, k) && 2 <= fd < SLOTS && SlotSound(img, slot, true)
    ensures Inv(img, WithFds(s, s.owner, s.pcbs[s.owner].fds[fd := slot]), k)
  {
    CurrentIsTop(img, s, k);
    var fds := s.pcbs[s.owner].fds;
    assert FdsSound(img, fds, true);
    var n := fds[fd := slot];
    forall i | 2 <= i < SLOTS ensures SlotSound(img, n[i], true) { assert SlotSound(img, fds[i], true); }
    TableKeeps(img, s, k, n);
  }

  lemma OpenKeeps(img: Image, s: State, k: Stacks, name: seq<byte>)
    requires Inv(img, s, k)
    ensures Inv(img, OpenStep(img, s, name).0, k)
  {
    var fd, slot := FreeFd(s.pcbs[s.owner].fds, 2), Opening(img, name);
    if fd != -1 && slot.Some? {
      var e := FindFrom(img.entries, name, 0);
      if e != -1 { assert WellFormedEntry(img.entries[e], |img.inodes|); }
      SlotKeeps(img, s, k, fd, slot.value);
    }
  }

  lemma CloseKeeps(img: Image, s: State, k: Stacks, fd: int)
    requires Inv(img, s, k)
    ensures Inv(img, CloseStep(s, fd).0, k)
  {
    OpenSlotIsSound(img, s, k, fd);
    var fds := s.pcbs[s.owner].fds;
    if 2 <= fd < SLOTS && fds[fd].inode != UNUSED { SlotKeeps(img, s, k, fd, ClosedFd(fds[fd])); }
  }

  lemma OpenSlotIsSound(img: Image, s: State, k: Stacks, fd: int)
    requires Inv(img, s, k)
    ensures 2 <= fd < SLOTS ==> SlotSound(img, s.pcbs[s.owner].fds[fd], true)
    ensures 0 <= fd < 2 ==> s.pcbs[s.owner].fds[fd].table == TerminalTable
  {
    CurrentIsTop(img, s, k);
    assert FdsSound(img, s.pcbs[s.owner].fds, true);
  }

  lemma ReadKeeps(img: Image, s: State, k: Stacks, fd: int, nbytes: int)
    requires Inv(img, s, k)
    ensures Inv(img, ReadStep(img, s, fd, nbytes).0, k)
  {
    OpenSlotIsSound(img, s, k, fd);
    var fds := s.pcbs[s.owner].fds;
    if 2 <= fd < SLOTS && fds[fd].inode != UNUSED {
      var slot := fds[fd];
      match slot.table
      case RtcTable => SlotKeeps(img, s, k, fd, slot.(pos := slot.flags));
      case FileTable =>
        if nbytes > 0 {
          var bytes := Slice(Contents(img, slot.inode), slot.pos, nbytes);
          SlotKeeps(img, s, k, fd, slot.(pos := Wrap32(slot.pos + |bytes|)));
        }
      case DirectoryTable => if slot.pos < ENTRIES { SlotKeeps(img, s, k, fd, slot.(pos := slot.pos + 1)); }
      case _ =>
    }
  }

  lemma WriteKeeps(img: Image, s: State, k: Stacks, fd: int, freq: bv32, nbytes: int)
    requires Inv(img, s, k)
    ensures Inv(img, WriteStep(s, fd, freq, nbytes).0, k)
  {
    OpenSlotIsSound(img, s, k, fd);
    var fds := s.pcbs[s.owner].fds;
    if 2 <= fd < SLOTS && fds[fd].table == RtcTable && Accepted(freq) {
      AcceptedCycles(freq);
      SlotKeeps(img, s, k, fd, fds[fd].(pos := Cycles(freq), flags := Cycles(freq)));
    }
  }

  lemma AcceptedCycles(f: bv32)
    requires Accepted(f)
    ensures Cycles(f) in {1, 2, 4, 8, 16, 32, 64, 128, 256, 512}
  {
    AcceptedArePowers(f);
  }

  // ----- interrupts

  predicate IsTop(s: State, p: int)
    requires |s.tops| == TERMINALS
  {
    p == s.tops[0] || p == s.tops[1] || p == s.tops[2]
  }

  lemma TopsDiffer(s: State, k: Stacks, t: int, u: int)
    requires Linked(s, k) && Topped(s, k) && 0 <= t < TERMINALS && 0 <= u < TERMINALS && t != u && s.tops[t] != -1
    ensures s.tops[t] != s.tops[u]
  {
    TopIsPid(s, t, k[t]);
    TopIsPid(s, u, k[u]);
  }

  /** A tick counts the clock slots of each terminal's top process down once, and touches no other process. */
  lemma CountTopsEach(s: State, k: Stacks, p: int)
    requires Shape(s) && Linked(s, k) && Topped(s, k) && 0 <= p < PIDS
    ensures CountTops(s.pcbs, s.tops, 0)[p] ==
      if IsTop(s, p) then s.pcbs[p].(fds := CountedFds(s.pcbs[p].fds)) else s.pcbs[p]
  {
    if s.tops[0] != -1 { TopsDiffer(s, k, 0, 1); TopsDiffer(s, k, 0, 2); }
    if s.tops[1] != -1 { TopsDiffer(s, k, 1, 2); }
    var one := CountTop(s.pcbs, s.tops[0]);
    var two := CountTop(one, s.tops[1]);
    var three := CountTop(two, s.tops[2]);
    assert CountTops(three, s.tops, 3) == three;
    assert CountTops(two, s.tops, 2) == three;
    assert CountTops(one, s.tops, 1) == three;
    assert CountTops(s.pcbs, s.tops, 0) == three;
  }

  lemma CountedSound(img: Image, fds: seq<Fd>, live: bool)
    requires FdsSound(img, fds, live)
    ensures FdsSound(img, CountedFds(fds), live)
  {
    var n := CountedFds(fds);
    forall i | 2 <= i < SLOTS ensures SlotSound(img, n[i], live) { assert SlotSound(img, fds[i], live); }
  }

  lemma CountKeeps(img: Image, s: State, k: Stacks, count: nat)
    requires Inv(img, s, k) && count <= QUANTUM
    ensures Inv(img, s.(pcbs := CountTops(s.pcbs, s.tops, 0), count := count), k)
  {
    var n := s.(pcbs := CountTops(s.pcbs, s.tops, 0), count := count);
    forall p | 0 <= p < PIDS
      ensures n.pcbs[p] == s.pcbs[p].(fds := n.pcbs[p].fds) && FdsSound(img, n.pcbs[p].fds, n.active[p] == 1)
        && PcbShape(n.pcbs[p]) && Resolved(img, n.pcbs[p].fds)
    {
      CountTopsEach(s, k, p);
      assert FdsSound(img, s.pcbs[p].fds, s.active[p] == 1) && PcbShape(s.pcbs[p]);
      CountedSound(img, s.pcbs[p].fds, s.active[p] == 1);
      FdsResolve(img, n.pcbs[p].fds, n.active[p] == 1);
    }
    LinksKeepStacks(s, n, k);
  }

  lemma SwitchKeeps(img: Image, s: State, k: Stacks, t: int, frame: Context)
    requires Inv(img, s, k) && 0 <= t < TERMINALS && s.tops[t] != -1
    ensures Inv(img, Switched(s, s.tops[t], frame), k)
  {
    var n := Switched(s, s.tops[t], frame);
    TopIsPid(s, t, k[t]);
    LinksKeepStacks(s, n, k);
    forall p | 0 <= p < PIDS
      ensures FdsSound(img, n.pcbs[p].fds, n.active[p] == 1) && PcbShape(n.pcbs[p]) && Resolved(img, n.pcbs[p].fds)
    {
      assert FdsSound(img, s.pcbs[p].fds, s.active[p] == 1) && PcbShape(s.pcbs[p]);
    }
  }

  lemma IndexKeeps(img: Image, s: State, k: Stacks, index: int, count: int)
    requires Inv(img, s, k) && 0 <= index < TERMINALS && 0 <= count <= QUANTUM
    ensures Inv(img, s.(index := index, count := count), k)
  {
    LinksKeepStacks(s, s.(index := index, count := count), k);
  }

  lemma {:induction false} RotateKeeps(img: Image, s: State, k: Stacks, frame: Context, tries: nat)
    requires Inv(img, s, k)
    ensures Inv(img, Rotate(s, frame, tries), k)
    decreases tries
  {
    if tries > 0 {
      var next := s.(index := (s.index + 1) % 3);
      IndexKeeps(img, s, k, next.index, s.count);
      if s.tops[next.index] != -1 && s.tops[next.index] != s.current {
        SwitchKeeps(img, next, k, next.index, frame);
      } else {
        RotateKeeps(img, next, k, frame, tries - 1);
      }
    }
  }

  /** A tick moves no process between stacks. */
  lemma TickKeeps(img: Image, s: State, k: Stacks, frame: Context)
    requires Inv(img, s, k)
    ensures Inv(img, TickStep(s, frame).0, k)
  {
    var count := if s.count > 0 then s.count - 1 else s.count;
    CountKeeps(img, s, k, count);
    var counted := s.(pcbs := CountTops(s.pcbs, s.tops, 0), count := count);
    if count == 0 {
      IndexKeeps(img, counted, k, s.index, QUANTUM);
      RotateKeeps(img, counted.(count := QUANTUM), k, frame, 3);
    }
  }

  /** Showing a terminal for the first time puts a shell at the bottom of its stack. */
  lemma DisplayKeeps(img: Image, s: State, k: Stacks, t: int, frame: Context)
    requires Inv(img, s, k) && 0 <= t < TERMINALS && Program(img, SHELL).Some?
    ensures var (n, out) := DisplayStep(img, s, t, frame);
      if t != s.shown && !s.started[t] && FirstFree(s.active, 0) != -1
      then out == Started(FirstFree(s.active, 0)) && Inv(img, n, k[t := [FirstFree(s.active, 0)]])
      else out == Nothing && Inv(img, n, k)
  {
    if t != s.shown && !s.started[t] && FirstFree(s.active, 0) != -1 {
      var g := s.(shown := t, started := s.started[t := true]);
      LinksKeepStacks(s, g, k);
      SpawnKeeps(img, g, k, SHELL, t, frame);
      assert k[t] + [FirstFree(s.active, 0)] == [FirstFree(s.active, 0)];
    } else {
      LinksKeepStacks(s, DisplayStep(img, s, t, frame).0, k);
    }
  }

  lemma StoreKeeps(img: Image, s: State, k: Stacks, offset: nat, value: byte)
    requires Inv(img, s, k) && offset < FRAME
    ensures Inv(img, StoreStep(s, offset, value).0, k)
  {
    LinksKeepStacks(s, StoreStep(s, offset, value).0, k);
  }

  // ----- one step of the machine

  /** What a step does to the stacks: push, pop, replace or nothing, read off the step's output. */
  function StacksAfter(s: State, k: Stacks, e: Event, out: Output): Stacks
    requires Shape(s) && |k| == TERMINALS
  {
    var t := s.pcbs[s.current].terminal;
    match (e, out)
    case (Execute(_, _), Started(pid)) => k[t := k[t] + [pid]]
    case (Halt(_), Started(pid)) => k[t := [pid]]
    case (Halt(_), Resumed(_, _, _)) => k[t := if k[t] == [] then [] else k[t][..|k[t]| - 1]]
    case (Display(u, _), Started(pid)) => if 0 <= u < TERMINALS then k[u := [pid]] else k
    case _ => k
  }

  predicate IsDescriptorEvent(e: Event) {
    e.Open? || e.Close? || e.Read? || e.Write? || e.Store?
  }

  lemma DescriptorStepKeeps(img: Image, s: State, k: Stacks, e: Event)
    requires Inv(img, s, k) && Admissible(e) && IsDescriptorEvent(e)
    ensures Inv(img, Step(img, s, e).0, k) && !Step(img, s, e).1.Started? && !Step(img, s, e).1.Resumed?
  {
    match e
    case Open(name) => OpenKeeps(img, s, k, name);
    case Close(fd) => CloseKeeps(img, s, k, fd);
    case Read(fd, nbytes) => ReadKeeps(img, s, k, fd, nbytes);
    case Write(fd, freq, nbytes) => WriteKeeps(img, s, k, fd, freq, nbytes);
    case Store(offset, value) => StoreKeeps(img, s, k, offset, value);
  }

  /** The simulation: every admissible step keeps the invariant with the stacks it prescribes. */
  lemma StepKeeps(img: Image, s: State, k: Stacks, e: Event)
    requires Inv(img, s, k) && Admissible(e) && Program(img, SHELL).Some?
    ensures var (n, out) := Step(img, s, e);
      Inv(img, n, StacksAfter(s, k, e, out))
  {
    match e
    case Execute(command, frame) => ExecuteKeeps(img, s, k, command, frame);
    case Halt(status) =>
      CurrentIsTop(img, s, k);
      if |k[s.pcbs[s.current].terminal]| == 1 { HaltRestarts(img, s, k, status); } else { HaltPops(img, s, k, status); }
    case Tick(frame) => TickKeeps(img, s, k, frame);
    case Display(terminal, frame) => DisplayKeeps(img, s, k, terminal, frame);
    case _ => DescriptorStepKeeps(img, s, k, e);
  }

  // ----- boot

  /** The globals after processes_init, with zeroed control blocks. */
  ghost predicate Initial(s: State) {
    && s.active == [-1, -1, -1, -1, -1, -1] && s.tops == [-1, -1, -1] && s.current == -1
    && |s.pcbs| == PIDS && |s.memory| == PIDS * FRAME
    && s.count == 0 && s.index == 0 && s.shown == 0 && s.started == [true, false, false]
    && forall p | 0 <= p < PIDS :: s.pcbs[p] == Pcb(ZERO_FDS, Context(0, 0), 0, -1, 0, [])
  }

  const ZERO_FD := Fd(NoTable, 0, 0, 0)
  const ZERO_FDS := [ZERO_FD, ZERO_FD, ZERO_FD, ZERO_FD, ZERO_FD, ZERO_FD, ZERO_FD, ZERO_FD]

  /** Starting the first shell establishes the invariant with that shell alone on terminal 0. */
  lemma BootEstablishes(img: Image, s: State, frame: Context)
    requires WellFormed(img) && Program(img, SHELL).Some? && Initial(s)
    ensures var (n, pid) := Spawn(img, s, SHELL, 0, -1, frame);
      pid == 0 && Inv(img, n, [[0], [], []])
  {
    var k: Stacks := [[], [], []];
    SpawnKeeps(img, s, k, SHELL, 0, frame);
    assert k[0] + [0] == [0];
    assert k[0 := [0]] == [[0], [], []];
  }
}
