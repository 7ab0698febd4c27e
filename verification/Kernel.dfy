/**
 * The kernel's globals and the handlers that update them in place, each proved equal to its step. The
 * arrays are the C arrays, the loops are the C loops, and `Snapshot` is the state that the steps speak
 * of; what the steps mean is proved beside them, and the contracts repeat it where a handler returns it.
 */
module KernelMachine {
  import opened Machine
  import opened FileSystem
  import opened RtcRate
  import opened Processes
  import opened ProcessStacks
  import opened ProcessSteps
  import opened ProcessEffects
  import opened ProcessCalls

  class Kernel {
    const img: Image
    const activePids: array<int>
    const terminalPids: array<int>
    const terminalActive: array<bool>
    const pcbs: array<Pcb>
    const memory: array<byte>
    var currentPid: int
    var fileDescriptors: int
    var page: int
    var esp0: u32
    var rtcCount: int
    var currentIndex: int
    var currentTerminal: int

    ghost predicate Allocated() {
      && activePids.Length == PIDS && terminalPids.Length == TERMINALS && terminalActive.Length == TERMINALS
      && pcbs.Length == PIDS && memory.Length == PIDS * FRAME && activePids != terminalPids
    }

    ghost function Snapshot(): State
      reads this, activePids, terminalPids, terminalActive, pcbs, memory
    {
      State(activePids[..], terminalPids[..], currentPid, pcbs[..], fileDescriptors, page, esp0, memory[..],
            rtcCount, currentIndex, currentTerminal, terminalActive[..])
    }

    ghost predicate Valid(k: Stacks)
      reads this, activePids, terminalPids, terminalActive, pcbs, memory
    {
      Allocated() && Inv(img, Snapshot(), k)
    }

    /** The globals before boot: zeroed, with terminal 0 marked active. */
    constructor (img: Image)
      ensures this.img == img && Allocated() && fresh(activePids) && fresh(terminalPids) && fresh(terminalActive)
      ensures fresh(pcbs) && fresh(memory) && forall p | 0 <= p < PIDS :: pcbs[p] == Pcb(ZERO_FDS, Context(0, 0), 0, -1, 0, [])
      ensures terminalActive[..] == [true, false, false] && rtcCount == 0 && currentIndex == 0 && currentTerminal == 0
    {
      this.img := img;
      activePids := new int[6](_ => 0);
      terminalPids := new int[3](_ => 0);
      terminalActive := new bool[3](t => t == 0);
      pcbs := new Pcb[6](_ => Pcb(ZERO_FDS, Context(0, 0), 0, -1, 0, []));
      memory := new byte[PIDS * FRAME](_ => 0);
      currentPid, fileDescriptors, page, esp0 := 0, 0, 0, 0;
      rtcCount, currentIndex, currentTerminal := 0, 0, 0;
    }

    // ----- process table

    method ProcessesInit()
      requires Allocated()
      modifies this`currentPid, activePids, terminalPids
      ensures activePids[..] == [-1, -1, -1, -1, -1, -1] && terminalPids[..] == [-1, -1, -1] && currentPid == -1
    {
      for i := 0 to 6
        invariant forall j | 0 <= j < i :: activePids[j] == -1
      {
        activePids[i] := -1;
      }
      for i := 0 to 3
        invariant forall j | 0 <= j < i :: terminalPids[j] == -1
        invariant forall j | 0 <= j < 6 :: activePids[j] == -1
      {
        terminalPids[i] := -1;
      }
      currentPid := -1;
    }

    method GetFreePid() returns (pid: int)
      requires Allocated()
      ensures pid == FirstFree(activePids[..], 0)
    {
      pid := 0;
      while pid < 6
        invariant 0 <= pid <= 6 && FirstFree(activePids[..], 0) == FirstFree(activePids[..], pid)
      {
        if activePids[pid] == -1 { return; }
        pid := pid + 1;
      }
      pid := -1;
    }

    /** The command split at the head of process_create. */
    static method SplitCommand(command: seq<byte>) returns (name: seq<byte>, args: seq<byte>)
      requires FitsBuffers(command)
      ensures name == CommandName(command) && args == CommandArgs(command)
    {
      var pos := 0;
      name, args := [], [];
      while pos < 32
        invariant 0 <= pos <= |command| && pos < 32 && name == command[..pos] && args == []
        invariant SpaceAt(command, 0) == SpaceAt(command, pos)
        decreases 32 - pos
      {
        if pos == |command| { return; }
        if command[pos] == SPACE {
          args := command[pos + 1..];
          return;
        }
        name := name + [command[pos]];
        pos := pos + 1;
      }
    }

    /** The checks process_create makes before it takes a slot: a regular file that starts with the ELF magic. */
    method FindProgram(name: seq<byte>) returns (inode: int)
      requires WellFormed(img) && IsText(name)
      ensures forall command | CommandName(command) == name ::
        inode == if Program(img, command).Some? then Program(img, command).value else -1
    {
      var entry := ReadDentryByName(img, name);
      if entry == -1 || img.entries[entry].kind != FILE_TYPE { return -1; }
      assert WellFormedEntry(img.entries[entry], |img.inodes|);
      var header := new byte[4];
      var node: u32 := img.entries[entry].inode;
      ghost var all := Contents(img, node);
      var n := ReadData(img, node, 0, header, 0, 4);
      if n != 4 { return -1; }
      assert forall i | 0 <= i < 4 :: header[..][i] == all[i];
      if header[1] == 69 && header[2] == 76 && header[3] == 70 && header[0] == 0x7F { return node; }
      return -1;
    }

    method SetPagingForProcess(pid: int)
      modifies this`page
      ensures page == 2 + pid
    {
      page := 2 + pid;
    }

    /** process_create. */
    method ProcessCreate(command: seq<byte>, terminal: int, parentPid: int) returns (pid: int, printed: seq<byte>)
      requires Allocated() && WellFormed(img) && FitsBuffers(command) && parentPid in {-1, currentPid}
      requires forall p | 0 <= p < PIDS :: |pcbs[p].fds| == SLOTS
      modifies this`page, activePids, pcbs, memory
      ensures pid == (if Program(img, command).None? then -1 else FirstFree(old(activePids[..]), 0))
      ensures printed == Complaint(img, old(activePids[..]), command)
      ensures Snapshot() ==
        if pid == -1 then old(Snapshot())
        else Created(img, old(Snapshot()), Program(img, command).value, pid, terminal, parentPid, CommandArgs(command))
    {
      var name, args := SplitCommand(command);
      var inode := FindProgram(name);
      if inode == -1 { return -1, []; }
      pid := GetFreePid();
      if pid == -1 { return -1, TOO_MANY; }
      printed := [];
      FillSlot(pid, inode, terminal, parentPid, args);
    }

    /** The part of process_create that can no longer fail. */
    method FillSlot(pid: int, inode: u32, terminal: int, parentPid: int, args: seq<byte>)
      requires Allocated() && WellFormed(img) && HasFile(img, inode) && 0 <= pid < PIDS && |pcbs[pid].fds| == SLOTS
      modifies this`page, activePids, pcbs, memory
      ensures Snapshot() == Created(img, old(Snapshot()), inode, pid, terminal, parentPid, args)
    {
      activePids[pid] := 0;
      SetPagingForProcess(pid);
      LoadFile(img, inode, memory, (page - 2) * FRAME + LOAD_OFFSET);
      InitPcb(pid, terminal, parentPid, args);
    }

    /** The PCB assignments of process_create. */
    method InitPcb(pid: int, terminal: int, parentPid: int, args: seq<byte>)
      requires Allocated() && 0 <= pid < PIDS && |pcbs[pid].fds| == SLOTS
      modifies pcbs
      ensures pcbs[..] == old(pcbs[..])[pid := NewPcb(old(pcbs[pid]), pid, terminal, parentPid, args)]
    {
      ClearFds(pid);
      pcbs[pid] := pcbs[pid].(pid := pid, terminal := terminal, parent := parentPid, args := args,
                              context := pcbs[pid].context.(esp := KernelStack(pid)));
    }

    /** The descriptor loop of process_create, then the two terminal slots. */
    method ClearFds(pid: int)
      requires Allocated() && 0 <= pid < PIDS && |pcbs[pid].fds| == SLOTS
      modifies pcbs
      ensures pcbs[..] == old(pcbs[..])[pid := old(pcbs[pid]).(fds := FreshFds(old(pcbs[pid].fds)))]
    {
      ghost var was := pcbs[..];
      for i := 0 to 8
        invariant |pcbs[pid].fds| == SLOTS && pcbs[..] == was[pid := was[pid].(fds := pcbs[pid].fds)]
        invariant forall j | 0 <= j < SLOTS ::
          pcbs[pid].fds[j] == if j < i then was[pid].fds[j].(inode := UNUSED) else was[pid].fds[j]
      {
        pcbs[pid] := pcbs[pid].(fds := pcbs[pid].fds[i := pcbs[pid].fds[i].(inode := UNUSED)]);
      }
      var fds := pcbs[pid].fds;
      fds := fds[0 := fds[0].(table := TerminalTable, inode := PLACEHOLDER)];
      fds := fds[1 := fds[1].(table := TerminalTable, inode := PLACEHOLDER)];
      assert fds == FreshFds(was[pid].fds);
      pcbs[pid] := pcbs[pid].(fds := fds);
    }

    /** process_start: `pid` outside 0..5 stands for process_create's failure, which the cast to uint8_t makes 255. */
    method ProcessStart(pid: int, frame: Context)
      requires Allocated() && -1 <= pid < PIDS && -1 <= currentPid < PIDS
      requires pid != -1 ==> activePids[pid] == 0 && 0 <= pcbs[pid].terminal < TERMINALS
      modifies this, activePids, terminalPids, pcbs
      ensures Snapshot() == if pid == -1 then old(Snapshot()) else Launched(old(Snapshot()), pid, frame)
      ensures pid != -1 ==> IsStackTop(esp0, pid)
    {
      if pid == -1 || activePids[pid] != 0 { return; }
      activePids[pid] := 1;
      SetPagingForProcess(pid);
      if currentPid != -1 { pcbs[currentPid] := pcbs[currentPid].(context := frame); }
      currentPid := pid;
      fileDescriptors := pid;
      terminalPids[pcbs[pid].terminal] := pid;
      esp0 := KernelStack(pid);
    }

    /** process_start(process_create(command, terminal, parent)). */
    method Start(command: seq<byte>, terminal: int, parentPid: int, frame: Context) returns (pid: int, printed: seq<byte>)
      requires Allocated() && WellFormed(img) && FitsBuffers(command) && parentPid in {-1, currentPid}
      requires -1 <= currentPid < PIDS && 0 <= terminal < TERMINALS
      requires forall p | 0 <= p < PIDS :: |pcbs[p].fds| == SLOTS
      modifies this, activePids, terminalPids, pcbs, memory
      ensures (Snapshot(), pid) == Spawn(img, old(Snapshot()), command, terminal, parentPid, frame)
      ensures printed == Complaint(img, old(activePids[..]), command)
    {
      pid, printed := ProcessCreate(command, terminal, parentPid);
      ProcessStart(pid, frame);
    }

    /** execute_handler. */
    method ExecuteHandler(command: seq<byte>, frame: Context, ghost k: Stacks)
      returns (ghost k': Stacks, pid: int, printed: seq<byte>)
      requires Valid(k) && FitsBuffers(command)
      modifies this, activePids, terminalPids, pcbs, memory
      ensures Snapshot() == ExecuteStep(img, old(Snapshot()), command, frame).0 && Valid(k')
      ensures printed == Complaint(img, old(activePids[..]), command)
      ensures k' == if pid == -1 then k
                    else var t := old(Snapshot()).pcbs[old(currentPid)].terminal; k[t := k[t] + [pid]]
    {
      ghost var s := Snapshot();
      ExecuteKeeps(img, s, k, command, frame);
      forall p | 0 <= p < PIDS ensures |pcbs[p].fds| == SLOTS { assert PcbShape(s.pcbs[p]); }
      assert PcbShape(s.pcbs[currentPid]);
      pid, printed := Start(command, pcbs[currentPid].terminal, currentPid, frame);
      k' := if pid == -1 then k else k[s.pcbs[s.current].terminal := k[s.pcbs[s.current].terminal] + [pid]];
    }

    // ----- descriptors

    method CheckValidFd(fd: int) returns (valid: bool)
      requires Allocated() && 0 <= fileDescriptors < PIDS && |pcbs[fileDescriptors].fds| == SLOTS
      ensures valid == ValidFd(pcbs[fileDescriptors].fds, fd)
    {
      if fd < 0 || fd >= 8 { return false; }
      return pcbs[fileDescriptors].fds[fd].inode != UNUSED;
    }

    method GetFreeFd() returns (fd: int)
      requires Allocated() && 0 <= fileDescriptors < PIDS && |pcbs[fileDescriptors].fds| == SLOTS
      ensures fd == FreeFd(pcbs[fileDescriptors].fds, 2)
    {
      fd := 2;
      while fd < 8
        invariant 2 <= fd <= 8 && FreeFd(pcbs[fileDescriptors].fds, 2) == FreeFd(pcbs[fileDescriptors].fds, fd)
      {
        if pcbs[fileDescriptors].fds[fd].inode == UNUSED { return; }
        fd := fd + 1;
      }
      fd := -1;
    }

    /** A store through `file_descriptors`. */
    method SetFd(fd: int, slot: Fd)
      requires Allocated() && 0 <= fileDescriptors < PIDS && 0 <= fd < |pcbs[fileDescriptors].fds|
      modifies pcbs
      ensures Snapshot() == WithFds(old(Snapshot()), fileDescriptors, old(pcbs[fileDescriptors].fds)[fd := slot])
      ensures pcbs[..] == old(pcbs[..])[fileDescriptors := old(pcbs[fileDescriptors]).(fds := old(pcbs[fileDescriptors].fds)[fd := slot])]
    {
      var pcb := pcbs[fileDescriptors];
      pcbs[fileDescriptors] := pcb.(fds := pcb.fds[fd := slot]);
    }

    /** rtc_close, file_close and directory_close, through an open slot's table. */
    method CloseSlot(fd: int) returns (r: int)
      requires Allocated() && 0 <= fileDescriptors < PIDS && |pcbs[fileDescriptors].fds| == SLOTS && 0 <= fd < SLOTS
      requires pcbs[fileDescriptors].fds[fd].inode != UNUSED && pcbs[fileDescriptors].fds[fd].table != NoTable
      modifies pcbs
      ensures pcbs[..] == old(pcbs[..])[fileDescriptors := old(pcbs[fileDescriptors]).(
                            fds := old(pcbs[fileDescriptors].fds)[fd := ClosedFd(old(pcbs[fileDescriptors].fds[fd]))])]
      ensures r == if old(pcbs[fileDescriptors].fds[fd].table) == TerminalTable then -1 else 0
    {
      var slot := pcbs[fileDescriptors].fds[fd];
      match slot.table
      case TerminalTable => r := -1; SetFd(fd, slot);
      case RtcTable => r := 0; SetFd(fd, Fd(NoTable, UNUSED, 0, 0));
      case FileTable => r := 0; SetFd(fd, slot.(inode := UNUSED));
      case DirectoryTable => r := 0; SetFd(fd, slot.(inode := UNUSED));
    }

    method CloseHandler(fd: int, ghost k: Stacks) returns (r: int)
      requires Valid(k)
      modifies pcbs
      ensures (Snapshot(), Returned(r)) == CloseStep(old(Snapshot()), fd) && Valid(k)
    {
      ghost var s := Snapshot();
      CloseKeeps(img, s, k, fd);
      OpenSlotIsSound(img, s, k, fd);
      assert PcbShape(s.pcbs[s.owner]);
      var valid := CheckValidFd(fd);
      if !valid { return -1; }
      r := CloseSlot(fd);
      if r == -1 {
        assert s.pcbs[s.owner].fds[fd := s.pcbs[s.owner].fds[fd]] == s.pcbs[s.owner].fds;
        assert pcbs[..] == s.pcbs;
      }
    }

    method OpenHandler(name: seq<byte>, ghost k: Stacks) returns (r: int)
      requires Valid(k) && IsText(name)
      modifies pcbs
      ensures (Snapshot(), Returned(r)) == OpenStep(img, old(Snapshot()), name) && Valid(k)
      ensures var fds := old(pcbs[currentPid].fds);
        |fds| == 8 && if (forall i | 2 <= i < 8 :: IsOpen(fds[i])) || !Resolves(img, name) then r == -1 else LeastClosed(fds, r)
    {
      ghost var s := Snapshot();
      OpenIff(img, s, k, name);
      OpenKeeps(img, s, k, name);
      assert PcbShape(s.pcbs[s.owner]);
      var rtc := |name| >= 3 && name[0] == 114 && name[1] == 116 && name[2] == 99;
      var slot: Fd;
      if rtc { slot := Fd(RtcTable, 0, 512, 512); }
      else {
        var entry := ReadDentryByName(img, name);
        if entry == -1 { return -1; }
        var directory := |name| >= 1 && name[0] == 46;
        if img.entries[entry].kind != (if directory then DIRECTORY_TYPE else FILE_TYPE) { return -1; }
        slot := Fd(if directory then DirectoryTable else FileTable, img.entries[entry].inode, 0, 0);
      }
      r := GetFreeFd();
      if r == -1 { return; }
      SetFd(r, slot);
    }

    /** file_read: the copy to the user's buffer and the new position. */
    method FileRead(fd: int, buf: array<byte>, nbytes: int, ghost k: Stacks) returns (r: int)
      requires Valid(k) && 2 <= fd < SLOTS && ValidFd(pcbs[fileDescriptors].fds, fd) && nbytes < 0x8000_0000
      requires pcbs[fileDescriptors].fds[fd].table == FileTable && nbytes <= buf.Length
      modifies pcbs, buf
      requires buf != memory
      ensures Snapshot() == ReadStep(img, old(Snapshot()), fd, nbytes).0 && Valid(k)
      ensures var out := ReadStep(img, old(Snapshot()), fd, nbytes).1;
        if out.Delivered? then r == |out.bytes| && buf[..] == Overwrite(old(buf[..]), 0, out.bytes) else Returned(r) == out
      ensures HasFile(img, old(pcbs[fileDescriptors].fds[fd].inode))
      ensures nbytes > 0 ==> var slot := old(pcbs[fileDescriptors].fds[fd]);
        PieceAt(Contents(img, slot.inode), slot.pos, buf[..r], nbytes) && pcbs[fileDescriptors].fds[fd].pos == slot.pos + r
    {
      ghost var s := Snapshot();
      ReadKeeps(img, s, k, fd, nbytes);
      OpenSlotIsSound(img, s, k, fd);
      if nbytes <= 0 { return -1; }
      var slot := pcbs[fileDescriptors].fds[fd];
      r := ReadData(img, slot.inode, slot.pos, buf, 0, nbytes);
      SetFd(fd, slot.(pos := Wrap32(slot.pos + r)));
    }

    /** The state change at the start of rtc_read, which then waits for the position to reach zero. */
    method RtcRead(fd: int, ghost k: Stacks)
      requires Valid(k) && 2 <= fd < SLOTS && ValidFd(pcbs[fileDescriptors].fds, fd)
      requires pcbs[fileDescriptors].fds[fd].table == RtcTable
      modifies pcbs
      ensures (Snapshot(), Waiting) == ReadStep(img, old(Snapshot()), fd, 0) && Valid(k)
    {
      ReadKeeps(img, Snapshot(), k, fd, 0);
      var slot := pcbs[fileDescriptors].fds[fd];
      SetFd(fd, slot.(pos := slot.flags));
    }

    /** directory_read: one name per call. */
    method DirectoryRead(fd: int, nbytes: int, ghost k: Stacks) returns (r: int, name: seq<byte>)
      requires Valid(k) && 2 <= fd < SLOTS && ValidFd(pcbs[fileDescriptors].fds, fd)
      requires pcbs[fileDescriptors].fds[fd].table == DirectoryTable
      modifies pcbs
      ensures (Snapshot(), if r == -1 then Returned(-1) else Delivered(name)) == ReadStep(img, old(Snapshot()), fd, nbytes)
      ensures Valid(k) && (r != -1 ==> r == |name|)
    {
      name := [];
      ReadKeeps(img, Snapshot(), k, fd, nbytes);
      var slot := pcbs[fileDescriptors].fds[fd];
      if slot.pos >= 63 || nbytes < 0 { return -1, []; }
      assert WellFormedEntry(img.entries[slot.pos], |img.inodes|);
      var len := NameLength(img.entries[slot.pos].name);
      r := Min(nbytes, len);
      name := img.entries[slot.pos].name[..r];
      assert name == CString(img.entries[slot.pos].name)[..r];
      SetFd(fd, slot.(pos := slot.pos + 1));
    }

    method RtcWrite(fd: int, freq: bv32, nbytes: int, ghost k: Stacks) returns (r: int)
      requires Valid(k) && 2 <= fd < SLOTS && ValidFd(pcbs[fileDescriptors].fds, fd)
      requires pcbs[fileDescriptors].fds[fd].table == RtcTable
      modifies pcbs
      ensures (Snapshot(), Returned(r)) == WriteStep(old(Snapshot()), fd, freq, nbytes) && Valid(k)
      ensures if nbytes == 4 && IsFrequency(freq as int)
              then r == 4 && var slot := pcbs[fileDescriptors].fds[fd]; slot.flags * (freq as int) == 1024 && slot.pos == slot.flags
              else r == -1 && pcbs[..] == old(pcbs[..])
    {
      AcceptedIs(freq);
      WriteKeeps(img, Snapshot(), k, fd, freq, nbytes);
      if nbytes != 4 { return -1; }
      if freq & (freq - 1) != 0 || freq < 2 || freq > 1024 { return -1; }
      var slot := pcbs[fileDescriptors].fds[fd];
      SetFd(fd, slot.(pos := Cycles(freq), flags := Cycles(freq)));
      return nbytes;
    }

    // ----- halt

    /** The descriptor loop at the head of halt_handler. */
    method CloseAllFds()
      requires Allocated() && 0 <= fileDescriptors < PIDS && |pcbs[fileDescriptors].fds| == SLOTS
      requires forall i | 2 <= i < SLOTS :: pcbs[fileDescriptors].fds[i].inode != UNUSED ==> pcbs[fileDescriptors].fds[i].table != NoTable
      modifies pcbs
      ensures Snapshot() == WithFds(old(Snapshot()), fileDescriptors, ClosedAll(old(pcbs[fileDescriptors].fds)))
    {
      ghost var was, fds := pcbs[..], pcbs[fileDescriptors].fds;
      for i := 2 to 8
        invariant |pcbs[fileDescriptors].fds| == SLOTS
        invariant pcbs[..] == was[fileDescriptors := was[fileDescriptors].(fds := pcbs[fileDescriptors].fds)]
        invariant forall j | 0 <= j < SLOTS :: pcbs[fileDescriptors].fds[j] == if j < i then ClosedAll(fds)[j] else fds[j]
      {
        if pcbs[fileDescriptors].fds[i].inode != UNUSED {
          var _ := CloseSlot(i);
        }
      }
      assert pcbs[fileDescriptors].fds == ClosedAll(fds);
    }

    method ReturnToParent(pid: int)
      requires Allocated() && 0 <= pid < PIDS && 0 <= pcbs[pid].parent < PIDS
      requires var p := pcbs[pid].parent; pcbs[p].pid == p && 0 <= pcbs[p].terminal < TERMINALS
      modifies this, activePids, terminalPids
      ensures var s, p := old(Snapshot()), old(pcbs[pid].parent);
        Snapshot() == s.(active := s.active[pid := -1], current := p, owner := p, page := 2 + p, esp0 := KernelStack(p),
                         tops := s.tops[s.pcbs[p].terminal := p])
      ensures IsStackTop(esp0, currentPid)
    {
      var parent := pcbs[pcbs[pid].parent];
      esp0 := KernelStack(parent.pid);
      fileDescriptors := parent.pid;
      currentPid := parent.pid;
      terminalPids[parent.terminal] := currentPid;
      activePids[pid] := -1;
      SetPagingForProcess(currentPid);
    }

    /** halt_handler: `resumed` is what the final leave and ret return to, with the status in EAX. */
    method HaltHandler(status: u32, ghost k: Stacks) returns (ghost k': Stacks, resumed: Output)
      requires Valid(k) && Program(img, SHELL).Some?
      modifies this, activePids, terminalPids, pcbs, memory
      ensures (Snapshot(), resumed) == HaltStep(img, old(Snapshot()), status)
      ensures k' == StacksAfter(old(Snapshot()), k, Halt(status), resumed) && Valid(k')
    {
      ghost var s := Snapshot();
      StepKeeps(img, s, k, Halt(status));
      CurrentIsTop(img, s, k);
      GoneKeeps(img, s, k);
      HaltReady(img, s, k);
      CloseAllFds();
      var pid := currentPid;
      var pcb := pcbs[pid];
      if pcb.parent == -1 {
        currentPid := -1;
        activePids[pid] := -1;
        assert Snapshot() == Gone(s).(current := -1);
        var shell, printed := Start(SHELL, pcb.terminal, -1, pcb.context);
        assert printed == [];
        resumed := if shell == -1 then Returned(0) else Started(shell);
      } else {
        resumed := Resumed(pcb.parent, pcbs[pcb.parent].context, status);
        ReturnToParent(pid);
      }
      k' := StacksAfter(s, k, Halt(status), resumed);
    }

    static lemma HaltReady(img: Image, s: State, k: Stacks)
      requires Inv(img, s, k)
      ensures forall i | 2 <= i < SLOTS :: s.pcbs[s.owner].fds[i].inode != UNUSED ==> s.pcbs[s.owner].fds[i].table != NoTable
      ensures |s.pcbs[s.owner].fds| == SLOTS && FitsBuffers(SHELL)
      ensures var p := s.pcbs[s.current].parent; p != -1 ==> s.pcbs[p].pid == p && 0 <= s.pcbs[p].terminal < TERMINALS
    {
      CurrentIsTop(img, s, k);
      assert PcbShape(s.pcbs[s.owner]);
      forall i | 2 <= i < SLOTS && s.pcbs[s.owner].fds[i].inode != UNUSED ensures s.pcbs[s.owner].fds[i].table != NoTable {
        HaltClosesThroughRealTables(img, s, k, i);
      }
      var t := s.pcbs[s.current].terminal;
      if |k[t]| > 1 { assert LiveAt(s, t, k[t], |k[t]| - 2); }
      ShellFits();
    }

    /** strncpy: the string, then NUL bytes up to n. */
    static method StrNCpy(buf: array<byte>, src: seq<byte>, n: nat)
      requires n <= buf.Length
      modifies buf
      ensures forall i | 0 <= i < n :: buf[i] == if i < |src| then src[i] else NUL
      ensures forall i | n <= i < buf.Length :: buf[i] == old(buf[i])
    {
      var i := 0;
      while i < |src| && i < n
        invariant 0 <= i <= n && i <= |src| && forall j | 0 <= j < i :: buf[j] == src[j]
        invariant forall j | i <= j < buf.Length :: buf[j] == old(buf[j])
      {
        buf[i] := src[i];
        i := i + 1;
      }
      while i < n
        invariant 0 <= i <= n && (i < n ==> i >= |src|)
        invariant forall j | 0 <= j < i :: buf[j] == if j < |src| then src[j] else NUL
        invariant forall j | i <= j < buf.Length :: buf[j] == old(buf[j])
      {
        buf[i] := NUL;
        i := i + 1;
      }
    }

    /** getargs_handler: the running process's arguments, when they and a terminator fit; no arguments are no failure. */
    method GetArgsHandler(buf: array<byte>, nbytes: nat, ghost k: Stacks) returns (r: int)
      requires Valid(k) && nbytes <= buf.Length && buf != memory
      modifies buf
      ensures Snapshot() == old(Snapshot()) && Valid(k)
      ensures var args := pcbs[currentPid].args;
        if nbytes <= |args| then r == -1 && buf[..] == old(buf[..])
        else r == 0 && buf[..|args|] == args && (forall i | |args| <= i < nbytes :: buf[i] == NUL)
             && forall i | nbytes <= i < buf.Length :: buf[i] == old(buf[i])
    {
      var args := pcbs[currentPid].args;
      if nbytes <= |args| { return -1; }
      StrNCpy(buf, args, nbytes);
      return 0;
    }

    // ----- interrupts

    /** process_switch: save the interrupted frame, adopt the other process's pointers. */
    method ProcessSwitch(pid: int, frame: Context) returns (resumed: Context)
      requires Allocated() && Shape(Snapshot()) && 0 <= pid < PIDS
      modifies this, pcbs
      ensures Snapshot() == Switched(old(Snapshot()), pid, frame) && IsStackTop(esp0, pid)
      ensures resumed == pcbs[pid].context
    {
      if currentPid != -1 { pcbs[currentPid] := pcbs[currentPid].(context := frame); }
      esp0 := KernelStack(pid);
      currentPid := pid;
      fileDescriptors := pid;
      SetPagingForProcess(pid);
      resumed := pcbs[pid].context;
    }

    /** The inner loop of rtc_handler: one process's clock slots. */
    method CountDown(top: int)
      requires Allocated() && 0 <= top < PIDS && |pcbs[top].fds| == SLOTS
      modifies pcbs
      ensures pcbs[..] == CountTop(old(pcbs[..]), top)
    {
      ghost var was, fds := pcbs[..], pcbs[top].fds;
      for i := 2 to 8
        invariant |pcbs[top].fds| == SLOTS && pcbs[..] == was[top := was[top].(fds := pcbs[top].fds)]
        invariant forall j | 0 <= j < SLOTS :: pcbs[top].fds[j] == if j < i then CountedFds(fds)[j] else fds[j]
      {
        var slot := pcbs[top].fds[i];
        if slot.table == RtcTable {
          if slot.pos > 0 {
            pcbs[top] := pcbs[top].(fds := pcbs[top].fds[i := slot.(pos := slot.pos - 1)]);
          }
        }
      }
      assert pcbs[top].fds == CountedFds(fds);
    }

    /** The first loop of rtc_handler: the tops of all three terminals. */
    method CountDownTops()
      requires Allocated() && forall t | 0 <= t < TERMINALS :: -1 <= terminalPids[t] < PIDS
      requires forall p | 0 <= p < PIDS :: PcbShape(pcbs[p])
      modifies pcbs
      ensures Snapshot() == old(Snapshot()).(pcbs := CountTops(old(pcbs[..]), old(terminalPids[..]), 0))
    {
      ghost var was := pcbs[..];
      for j := 0 to 3
        invariant CountTops(was, terminalPids[..], 0) == CountTops(pcbs[..], terminalPids[..], j)
        invariant forall p | 0 <= p < PIDS :: PcbShape(pcbs[p])
      {
        if terminalPids[j] != -1 { CountDown(terminalPids[j]); }
      }
    }

    /** One round of the search: the next terminal's top is adopted unless there is none or it runs already. */
    method TryNext(frame: Context, ghost tries: nat) returns (done: bool)
      requires Allocated() && Shape(Snapshot()) && tries > 0
      modifies this, pcbs
      ensures Shape(Snapshot()) && Rotate(old(Snapshot()), frame, tries) ==
        if done then Snapshot() else Rotate(Snapshot(), frame, tries - 1)
    {
      ghost var s := Snapshot();
      currentIndex := (currentIndex + 1) % 3;
      assert Snapshot() == s.(index := (s.index + 1) % 3);
      var top := terminalPids[currentIndex];
      done := top != -1 && top != currentPid;
      if done { var _ := ProcessSwitch(top, frame); }
    }

    /** The round robin of rtc_handler. */
    method RoundRobin(frame: Context)
      requires Allocated() && Shape(Snapshot())
      modifies this, pcbs
      ensures Snapshot() == Rotate(old(Snapshot()), frame, 3)
    {
      ghost var s := Snapshot();
      var i := 0;
      while i < 3
        invariant 0 <= i <= 3 && Shape(Snapshot()) && Rotate(s, frame, 3) == Rotate(Snapshot(), frame, 3 - i)
      {
        var done := TryNext(frame, 3 - i);
        if done { return; }
        i := i + 1;
      }
    }

    /** rtc_handler. */
    method RtcHandler(frame: Context, ghost k: Stacks)
      requires Valid(k)
      modifies this, pcbs
      ensures Snapshot() == TickStep(old(Snapshot()), frame).0 && Valid(k)
    {
      ghost var s := Snapshot();
      TickKeeps(img, s, k, frame);
      CountTopsShape(s.pcbs, s.tops, 0);
      CountDownTops();
      if rtcCount > 0 { rtcCount := rtcCount - 1; }
      if rtcCount == 0 {
        rtcCount := 8;
        RoundRobin(frame);
      }
    }

    /** The first switch to a terminal: it becomes active and gets a shell of its own. */
    method Activate(terminal: int, frame: Context)
      requires Allocated() && Shape(Snapshot()) && WellFormed(img) && 0 <= terminal < TERMINALS && Program(img, SHELL).Some?
      modifies this, activePids, terminalPids, terminalActive, pcbs, memory
      ensures Snapshot() == Spawn(img, old(Snapshot()).(started := old(terminalActive[..])[terminal := true]),
                                  SHELL, terminal, -1, frame).0
    {
      ghost var s := Snapshot();
      terminalActive[terminal] := true;
      forall p | 0 <= p < PIDS ensures |pcbs[p].fds| == SLOTS { assert PcbShape(s.pcbs[p]); }
      assert Snapshot() == s.(started := s.started[terminal := true]);
      ShellFits();
      var _, _ := Start(SHELL, terminal, -1, frame);
    }

    /** The process side of switch_terminal. */
    method SwitchTo(terminal: int, frame: Context)
      requires Allocated() && Shape(Snapshot()) && WellFormed(img) && 0 <= terminal < TERMINALS && Program(img, SHELL).Some?
      modifies this, activePids, terminalPids, terminalActive, pcbs, memory
      ensures Snapshot() == DisplayStep(img, old(Snapshot()), terminal, frame).0
    {
      ghost var s := Snapshot();
      if terminal == currentTerminal { return; }
      var free := GetFreePid();
      if free == -1 && !terminalActive[terminal] { return; }
      currentTerminal := terminal;
      assert Snapshot() == s.(shown := terminal);
      if !terminalActive[terminal] { Activate(terminal, frame); }
    }

    /** The switch keeps the invariant; a first switch starts a stack with the new shell at the bottom. */
    method SwitchTerminal(terminal: int, frame: Context, ghost k: Stacks) returns (ghost k': Stacks)
      requires Valid(k) && 0 <= terminal < TERMINALS && Program(img, SHELL).Some?
      modifies this, activePids, terminalPids, terminalActive, pcbs, memory
      ensures Snapshot() == DisplayStep(img, old(Snapshot()), terminal, frame).0
      ensures k' == StacksAfter(old(Snapshot()), k, Display(terminal, frame), DisplayStep(img, old(Snapshot()), terminal, frame).1)
      ensures Valid(k')
    {
      DisplayKeeps(img, Snapshot(), k, terminal, frame);
      k' := StacksAfter(Snapshot(), k, Display(terminal, frame), DisplayStep(img, Snapshot(), terminal, frame).1);
      SwitchTo(terminal, frame);
    }

    /** The end of the kernel's entry: an empty process table, then the first shell on terminal 0. */
    method Boot(frame: Context) returns (ghost k: Stacks)
      requires Allocated() && WellFormed(img) && Program(img, SHELL).Some?
      requires forall p | 0 <= p < PIDS :: pcbs[p] == Pcb(ZERO_FDS, Context(0, 0), 0, -1, 0, [])
      requires terminalActive[..] == [true, false, false] && rtcCount == 0 && currentIndex == 0 && currentTerminal == 0
      modifies this, activePids, terminalPids, pcbs, memory
      ensures k == [[0], [], []] && Valid(k)
    {
      ProcessesInit();
      ShellFits();
      ghost var s := Snapshot();
      BootEstablishes(img, s, frame);
      var _, printed := Start(SHELL, 0, -1, frame);
      assert printed == [];
      k := [[0], [], []];
    }
  }
}
