/** What each system call answers and changes, in bytes, addresses and slot numbers. */
module ProcessCalls {
  import opened Machine
  import opened FileSystem
  import opened RtcRate
  import opened Processes
  import opened ProcessStacks
  import opened ProcessSteps
  import opened ProcessEffects

  // ----- names

  /** The 32-byte name field spells the first 32 bytes of `name`, and ends there. */
  predicate Named(e: Entry, name: seq<byte>) {
    var n := if |name| > 32 then 32 else |name|;
    |e.name| == 32 && e.name[..n] == name[..n] && (n < 32 ==> e.name[n] == 0)
  }

  lemma {:induction false} NulAtIs(s: seq<byte>, i: nat, n: nat)
    requires i <= n <= |s| && (forall k | i <= k < n :: s[k] != 0) && (n < |s| ==> s[n] == 0)
    ensures NulAt(s, i) == n
    decreases n - i
  {
    if i < n { NulAtIs(s, i + 1, n); }
  }

  lemma NamedIff(e: Entry, name: seq<byte>)
    requires |e.name| == 32 && IsText(name)
    ensures Named(e, name) <==> CString(e.name) == Truncated(name)
  {
    var n := if |name| > 32 then 32 else |name|;
    assert Truncated(name) == name[..n];
    if Named(e, name) {
      assert forall k | 0 <= k < n :: e.name[k] == e.name[..n][k] == name[k];
      NulAtIs(e.name, 0, n);
    }
  }

  /** Directory entry e is the first with this name. */
  ghost predicate FirstNamed(img: Image, name: seq<byte>, e: int) {
    && |img.entries| == 63 && 0 <= e < 63 && Named(img.entries[e], name)
    && forall k | 0 <= k < e :: !Named(img.entries[k], name)
  }

  lemma FindsFirstNamed(img: Image, name: seq<byte>)
    requires WellFormed(img) && IsText(name)
    ensures var e := FindFrom(img.entries, name, 0);
      if e == -1 then forall k :: !FirstNamed(img, name, k) else forall k :: FirstNamed(img, name, k) <==> k == e
  {
    forall k | 0 <= k < 63 ensures Named(img.entries[k], name) <==> CString(img.entries[k].name) == Truncated(name) {
      assert WellFormedEntry(img.entries[k], |img.inodes|);
      NamedIff(img.entries[k], name);
    }
  }

  // ----- open

  predicate IsOpen(slot: Fd) {
    slot.inode != 0xFFFF_FFFF
  }

  predicate BeginsWith(name: seq<byte>, start: seq<byte>) {
    start <= name
  }

  /** "rtc" opens the clock, "." and what follows a directory (type 1), every other name a regular file (type 2). */
  ghost predicate Opens(img: Image, name: seq<byte>, slot: Fd) {
    if BeginsWith(name, [114, 116, 99]) then slot == Fd(RtcTable, 0, 512, 512)
    else exists e :: FirstNamed(img, name, e) && OpensEntry(img.entries[e], BeginsWith(name, [46]), slot)
  }

  predicate OpensEntry(e: Entry, dot: bool, slot: Fd) {
    if dot then e.kind == 1 && slot == Fd(DirectoryTable, e.inode, 0, 0)
    else e.kind == 2 && slot == Fd(FileTable, e.inode, 0, 0)
  }

  ghost predicate Resolves(img: Image, name: seq<byte>) {
    exists slot :: Opens(img, name, slot)
  }

  lemma OpeningIs(img: Image, name: seq<byte>, slot: Fd)
    requires WellFormed(img) && IsText(name)
    ensures Opens(img, name, slot) <==> Opening(img, name) == Some(slot)
  {
    FindsFirstNamed(img, name);
    assert BeginsWith(name, [114, 116, 99]) <==> IsRtcName(name) by {
      if IsRtcName(name) { assert name[..3] == [114, 116, 99]; }
    }
    assert BeginsWith(name, [46]) <==> IsDotName(name) by {
      if IsDotName(name) { assert name[..1] == [46]; }
    }
    var e := FindFrom(img.entries, name, 0);
    if e != -1 { assert FirstNamed(img, name, e); }
  }

  /** n is s with slot fd of the running process set. */
  ghost predicate SetsSlot(s: State, n: State, fd: int, slot: Fd) {
    && 0 <= s.current < |s.pcbs| && 0 <= fd < |s.pcbs[s.current].fds|
    && n == s.(pcbs := s.pcbs[s.current := s.pcbs[s.current].(fds := s.pcbs[s.current].fds[fd := slot])])
  }

  /** fd is the least closed descriptor from 2 on. */
  ghost predicate LeastClosed(fds: seq<Fd>, fd: int) {
    |fds| == 8 && 2 <= fd < 8 && !IsOpen(fds[fd]) && forall i | 2 <= i < fd :: IsOpen(fds[i])
  }

  lemma FreeFdIs(fds: seq<Fd>)
    requires |fds| == 8
    ensures var fd := FreeFd(fds, 2);
      if fd == -1 then forall i | 2 <= i < 8 :: IsOpen(fds[i]) else LeastClosed(fds, fd)
  {
  }

  /**
   * open fails exactly when descriptors 2 to 7 are all open or the name does not resolve; otherwise it
   * returns the least closed descriptor and changes that slot alone.
   */
  lemma OpenIff(img: Image, s: State, k: Stacks, name: seq<byte>)
    requires Inv(img, s, k) && IsText(name)
    ensures |s.pcbs[s.current].fds| == 8
    ensures var (n, out), fds := OpenStep(img, s, name), s.pcbs[s.current].fds;
      if (forall i | 2 <= i < 8 :: IsOpen(fds[i])) || !Resolves(img, name) then n == s && out == Returned(-1)
      else out.Returned? && LeastClosed(fds, out.value)
           && exists slot :: Opens(img, name, slot) && IsOpen(slot) && SetsSlot(s, n, out.value, slot)
  {
    assert PcbShape(s.pcbs[s.current]);
    FreeFdIs(s.pcbs[s.current].fds);
    forall slot ensures Opens(img, name, slot) <==> Opening(img, name) == Some(slot) { OpeningIs(img, name, slot); }
    if Opening(img, name).Some? {
      var slot := Opening(img, name).value;
      assert Opens(img, name, slot);
      var e := FindFrom(img.entries, name, 0);
      if e != -1 { assert WellFormedEntry(img.entries[e], |img.inodes|); }
      assert IsOpen(slot);
    }
  }

  // ----- close

  /** close succeeds exactly for an open descriptor from 2 to 7, which it closes; nothing else changes. */
  lemma CloseIff(img: Image, s: State, k: Stacks, fd: int)
    requires Inv(img, s, k)
    ensures |s.pcbs[s.current].fds| == 8
    ensures var (n, out), fds := CloseStep(s, fd), s.pcbs[s.current].fds;
      if 2 <= fd < 8 && IsOpen(fds[fd])
      then out == Returned(0) && exists slot :: !IsOpen(slot) && slot.table != RtcTable && SetsSlot(s, n, fd, slot)
      else n == s && out == Returned(-1)
  {
    OpenSlotIsSound(img, s, k, fd);
    assert PcbShape(s.pcbs[s.current]);
    var fds := s.pcbs[s.current].fds;
    if 2 <= fd < 8 && IsOpen(fds[fd]) {
      var slot := ClosedFd(fds[fd]);
      assert !IsOpen(slot) && SetsSlot(s, CloseStep(s, fd).0, fd, slot);
    }
  }

  // ----- read and write

  /** Calls on numbers outside 0 to 7 and on closed descriptors fail, and so does a write to a file or directory. */
  lemma BadCallsFail(img: Image, s: State, k: Stacks, fd: int, freq: bv32, nbytes: int)
    requires Inv(img, s, k) && |s.pcbs[s.current].fds| == 8
    requires 0 <= fd < 8 && IsOpen(s.pcbs[s.current].fds[fd]) ==> s.pcbs[s.current].fds[fd].table in {FileTable, DirectoryTable}
    ensures WriteStep(s, fd, freq, nbytes) == (s, Returned(-1))
    ensures !(0 <= fd < 8 && IsOpen(s.pcbs[s.current].fds[fd])) ==> ReadStep(img, s, fd, nbytes) == (s, Returned(-1))
  {
    OpenSlotIsSound(img, s, k, fd);
  }

  /** `more` is what the file holds from `at` on: as many bytes as asked for, or all that are left. */
  ghost predicate PieceAt(all: seq<byte>, at: nat, more: seq<byte>, nbytes: int) {
    && at + |more| <= |all| && more == all[at..at + |more|] && |more| <= nbytes && (|more| < nbytes ==> at + |more| == |all|)
  }

  /**
   * A read of a positive size delivers the file's next bytes, as many as were asked for or are left, and
   * moves the position behind them; any other size is refused.
   */
  lemma FileReadGives(img: Image, s: State, k: Stacks, fd: int, nbytes: int)
    requires Inv(img, s, k) && OpenAt(s, s.current, fd, FileTable)
    ensures var slot := s.pcbs[s.current].fds[fd];
      HasFile(img, slot.inode) && slot.pos <= |Contents(img, slot.inode)|
    ensures var (n, out), slot := ReadStep(img, s, fd, nbytes), s.pcbs[s.current].fds[fd];
      var all := Contents(img, slot.inode);
      if nbytes <= 0 then n == s && out == Returned(-1)
      else var count := if nbytes < |all| - slot.pos then nbytes else |all| - slot.pos;
        out == Delivered(all[slot.pos..slot.pos + count]) && SetsSlot(s, n, fd, slot.(pos := slot.pos + count))
  {
    OpenSlotIsSound(img, s, k, fd);
    var slot := s.pcbs[s.current].fds[fd];
    if nbytes > 0 { SliceIsPiece(Contents(img, slot.inode), slot.pos, nbytes); }
  }

  lemma AcceptedIs(freq: bv32)
    ensures Accepted(freq) <==> IsFrequency(freq as int)
    ensures Accepted(freq) ==> freq != 0 && Cycles(freq) * (freq as int) == 1024
  {
    AcceptedArePowers(freq);
    if Accepted(freq) { CyclesAreExact(freq); }
  }

  predicate IsFrequency(f: int) {
    f in {2, 4, 8, 16, 32, 64, 128, 256, 512, 1024}
  }

  /**
   * A 4-byte write of 2, 4, 8, ..., 1024 to the clock makes its period 1024 / f ticks and changes nothing
   * else; every other frequency or size is refused.
   */
  lemma ClockWriteGives(img: Image, s: State, k: Stacks, fd: int, freq: bv32, nbytes: int)
    requires Inv(img, s, k) && IsClock(s, s.current, fd)
    ensures var (n, out) := WriteStep(s, fd, freq, nbytes);
      if nbytes == 4 && IsFrequency(freq as int)
      then out == Returned(4) && IsClock(n, s.current, fd)
           && var period := n.pcbs[s.current].fds[fd].flags;
              period * (freq as int) == 1024 && SetsSlot(s, n, fd, Fd(RtcTable, 0, period, period))
      else n == s && out == Returned(-1)
  {
    OpenSlotIsSound(img, s, k, fd);
    AcceptedIs(freq);
  }

  // ----- a user's store

  /** A store by the running process changes one byte of physical memory, in its own 4 MB from 8 MB on. */
  lemma StoreLands(img: Image, s: State, k: Stacks, offset: nat, value: byte)
    requires Inv(img, s, k) && offset < 0x40_0000
    ensures var n := StoreStep(s, offset, value).0;
      0x40_0000 * s.page == 0x80_0000 + 0x40_0000 * s.current
      && |s.memory| == |n.memory| == 6 * 0x40_0000 && n == s.(memory := n.memory)
      && forall i | 0 <= i < |n.memory| :: n.memory[i] == if i == 0x40_0000 * s.current + offset then value else s.memory[i]
  {
  }

  // ----- execute

  /** A command is a name without spaces, alone or followed by one space and the arguments. */
  predicate Parts(command: seq<byte>, name: seq<byte>, args: seq<byte>) {
    32 !in name && if 32 in command then command == name + [32] + args else command == name && args == []
  }

  lemma {:induction false} SpaceAtIs(command: seq<byte>, i: nat, n: nat)
    requires i <= n <= |command| && (forall k | i <= k < n :: command[k] != 32) && (n < |command| ==> command[n] == 32)
    ensures SpaceAt(command, i) == n
    decreases n - i
  {
    if i < n { SpaceAtIs(command, i + 1, n); }
  }

  lemma PartsIff(command: seq<byte>, name: seq<byte>, args: seq<byte>)
    ensures Parts(command, name, args) <==> name == CommandName(command) && args == CommandArgs(command)
  {
    var n := SpaceAt(command, 0);
    assert command[0..n] == command[..n];
    if Parts(command, name, args) {
      assert forall k | 0 <= k < |name| :: command[k] == name[k];
      SpaceAtIs(command, 0, |name|);
    } else if n < |command| {
      assert command == command[..n] + [32] + command[n + 1..];
    }
  }

  /** Entry e is a regular file (type 2) that begins with 7F, 'E', 'L', 'F'. */
  ghost predicate IsExecutable(img: Image, e: int) {
    && 0 <= e < |img.entries| && img.entries[e].kind == 2 && HasFile(img, img.entries[e].inode)
    && var all := Contents(img, img.entries[e].inode); |all| >= 4 && all[..4] == [0x7F, 0x45, 0x4C, 0x46]
  }

  /** The first entry of this name is an executable: e. */
  ghost predicate Starts(img: Image, name: seq<byte>, e: int) {
    FirstNamed(img, name, e) && IsExecutable(img, e)
  }

  lemma ProgramIs(img: Image, command: seq<byte>, name: seq<byte>, args: seq<byte>)
    requires WellFormed(img) && IsText(command) && Parts(command, name, args)
    ensures Program(img, command).Some? <==> exists e :: Starts(img, name, e)
    ensures forall e | Starts(img, name, e) :: Program(img, command) == Some(img.entries[e].inode)
  {
    PartsIff(command, name, args);
    assert forall i | 0 <= i < |name| :: name[i] == command[i];
    FindsFirstNamed(img, name);
    var e := FindFrom(img.entries, name, 0);
    if e != -1 {
      assert FirstNamed(img, name, e) && WellFormedEntry(img.entries[e], |img.inodes|);
      assert Starts(img, name, e) <==> IsExecutable(img, e);
      if img.entries[e].kind == 2 {
        var all := Contents(img, img.entries[e].inode);
        assert IsElf(all) <==> |all| >= 4 && all[..4] == [0x7F, 0x45, 0x4C, 0x46] by {
          if |all| >= 4 { assert all[..4] == [all[0], all[1], all[2], all[3]]; }
        }
      }
    }
  }

  /** Slots 0 and 1 are the terminal; 2 to 7 are closed. */
  ghost predicate FreshSlots(fds: seq<Fd>) {
    && |fds| == 8 && (forall i | 0 <= i < 2 :: fds[i].table == TerminalTable && IsOpen(fds[i]))
    && forall i | 2 <= i < 8 :: !IsOpen(fds[i])
  }

  /** A new process: the lowest free pid, its place, its arguments, descriptors and stack, and the file in its memory. */
  ghost predicate Child(img: Image, active: seq<int>, n: State, pid: int, inode: int, terminal: int, parent: int, args: seq<byte>) {
    && |active| == |n.active| == |n.pcbs| == 6 && 0 <= pid < 6 && HasFile(img, inode)
    && active[pid] == -1 && (forall p | 0 <= p < pid :: active[p] != -1) && n.active == active[pid := 1]
    && n.current == pid && IsStackTop(n.esp0, pid) && IsStackTop(n.pcbs[pid].context.esp, pid)
    && n.pcbs[pid].args == args && n.pcbs[pid].parent == parent && n.pcbs[pid].terminal == terminal
    && FreshSlots(n.pcbs[pid].fds)
    && var base, all := 0x40_0000 * pid + 0x4_8000, Contents(img, inode);
       |n.memory| == 6 * 0x40_0000 && base + |all| <= |n.memory| && n.memory[base..base + |all|] == all
  }

  lemma FreshFdsAre(fds: seq<Fd>)
    requires |fds| == 8
    ensures FreshSlots(FreshFds(fds))
  {
  }

  lemma ChildIs(img: Image, g: State, inode: u32, pid: int, t: int, parent: int, args: seq<byte>, frame: Context)
    requires HasFile(img, inode) && |g.active| == |g.pcbs| == 6 && |g.memory| == PIDS * FRAME && |g.tops| == 3 && 0 <= t < 3
    requires -1 <= g.current < 6 && (g.current != -1 ==> g.active[g.current] != -1)
    requires pid == FirstFree(g.active, 0) != -1 && |g.pcbs[pid].fds| == 8
    ensures Child(img, g.active, Launched(Created(img, g, inode, pid, t, parent, args), pid, frame), pid, inode, t, parent, args)
  {
    CreatedIsLoaded(img, g, inode, pid, t, parent, args, frame);
    FreshFdsAre(g.pcbs[pid].fds);
  }

  /** What every start of a program has in common. */
  lemma SpawnMakesChild(img: Image, g: State, command: seq<byte>, name: seq<byte>, args: seq<byte>, t: int, parent: int,
                        frame: Context, e: int)
    requires WellFormed(img) && |g.active| == |g.pcbs| == 6 && |g.memory| == PIDS * FRAME && |g.tops| == 3 && 0 <= t < 3
    requires -1 <= g.current < 6 && (g.current != -1 ==> g.active[g.current] != -1)
    requires (forall p | 0 <= p < 6 :: |g.pcbs[p].fds| == 8) && IsText(command)
    requires Parts(command, name, args) && Starts(img, name, e) && Spawn(img, g, command, t, parent, frame).1 != -1
    ensures var (n, pid) := Spawn(img, g, command, t, parent, frame);
      Child(img, g.active, n, pid, img.entries[e].inode, t, parent, args)
  {
    ProgramIs(img, command, name, args);
    PartsIff(command, name, args);
    ChildIs(img, g, img.entries[e].inode, FirstFree(g.active, 0), t, parent, args, frame);
  }

  /**
   * execute starts a process exactly when a pid is free and the first directory entry of the command's name
   * is an executable, and otherwise changes nothing.
   */
  lemma ExecuteIff(img: Image, s: State, k: Stacks, command: seq<byte>, name: seq<byte>, args: seq<byte>, frame: Context)
    requires Inv(img, s, k) && IsText(command) && Parts(command, name, args)
    ensures var (n, out) := ExecuteStep(img, s, command, frame);
      if (exists p | 0 <= p < 6 :: s.active[p] == -1) && (exists e :: Starts(img, name, e)) then out.Started?
      else n == s && out == Returned(-1)
  {
    ProgramIs(img, command, name, args);
  }

  /** The process that execute starts has the lowest free pid, and the file and the arguments are the command's. */
  lemma ExecuteMakesChild(img: Image, s: State, k: Stacks, command: seq<byte>, name: seq<byte>, args: seq<byte>,
                          frame: Context, e: int)
    requires Inv(img, s, k) && IsText(command) && Parts(command, name, args) && Starts(img, name, e)
    requires ExecuteStep(img, s, command, frame).1.Started?
    ensures var (n, out) := ExecuteStep(img, s, command, frame);
      Child(img, s.active, n, out.pid, img.entries[e].inode, s.pcbs[s.current].terminal, s.current, args)
  {
    CurrentIsTop(img, s, k);
    forall p | 0 <= p < 6 ensures |s.pcbs[p].fds| == 8 { assert PcbShape(s.pcbs[p]); }
    SpawnMakesChild(img, s, command, name, args, s.pcbs[s.current].terminal, s.current, frame, e);
  }

  /** "shell", without arguments. */
  predicate IsShell(name: seq<byte>) {
    name == [0x73, 0x68, 0x65, 0x6C, 0x6C]
  }

  lemma ShellParts(name: seq<byte>)
    requires IsShell(name)
    ensures Parts(SHELL, name, []) && IsText(SHELL)
  {
  }

  /** When a base shell halts, the program "shell" starts afresh on its terminal. */
  lemma HaltMakesShell(img: Image, s: State, k: Stacks, status: u32, name: seq<byte>, e: int)
    requires Inv(img, s, k) && s.pcbs[s.current].parent == -1 && IsShell(name) && Starts(img, name, e)
    ensures var (n, out) := HaltStep(img, s, status);
      out.Started? && Child(img, s.active[s.current := -1], n, out.pid, img.entries[e].inode, s.pcbs[s.current].terminal, -1, [])
  {
    ShellParts(name);
    ProgramIs(img, SHELL, name, []);
    CurrentIsTop(img, s, k);
    var g := Gone(s).(current := -1);
    assert g.active[s.current] == -1;
    forall p | 0 <= p < 6 ensures |g.pcbs[p].fds| == 8 { assert PcbShape(s.pcbs[p]); }
    SpawnMakesChild(img, g, SHELL, name, [], s.pcbs[s.current].terminal, -1, s.pcbs[s.current].context, e);
  }

  /** The first switch to a terminal starts the program "shell" there. */
  lemma DisplayMakesShell(img: Image, s: State, k: Stacks, t: int, frame: Context, name: seq<byte>, e: int)
    requires Inv(img, s, k) && 0 <= t < 3 && IsShell(name) && Starts(img, name, e) && DisplayStep(img, s, t, frame).1.Started?
    ensures var (n, out) := DisplayStep(img, s, t, frame); Child(img, s.active, n, out.pid, img.entries[e].inode, t, -1, [])
  {
    ShellParts(name);
    CurrentIsTop(img, s, k);
    var g := s.(shown := t, started := s.started[t := true]);
    forall p | 0 <= p < 6 ensures |g.pcbs[p].fds| == 8 { assert PcbShape(s.pcbs[p]); }
    SpawnMakesChild(img, g, SHELL, name, [], t, -1, frame, e);
  }

  // ----- terminal switches

  /** A switch displays the terminal if it is in use or a pid is free for its shell, and otherwise changes nothing. */
  lemma DisplayIff(img: Image, s: State, k: Stacks, t: int, frame: Context)
    requires Inv(img, s, k) && 0 <= t < 3
    ensures var n := DisplayStep(img, s, t, frame).0;
      if t == s.shown || s.started[t] then n == s.(shown := t)
      else if exists p | 0 <= p < 6 :: s.active[p] == -1 then n.shown == t && n.started == s.started[t := true]
      else n == s
  {
    assert s.shown == t ==> s.(shown := t) == s;
  }

  // ----- kernel stacks

  /** The kernel stack handed to the processor is the top of the running process's own block, in no other block. */
  lemma StackIsOwn(img: Image, s: State, k: Stacks)
    requires Inv(img, s, k)
    ensures IsStackTop(s.esp0, s.current) && forall p | 0 <= p < 6 && p != s.current :: !InBlock(s.esp0, p)
  {
  }
}
