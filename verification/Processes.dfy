/** The process table, the scheduler and the descriptor tables as one state machine. */
module Processes {
  import opened Machine
  import opened FileSystem
  import opened RtcRate

  const PIDS := 6
  const TERMINALS := 3
  const SLOTS := 8
  const QUANTUM := 8
  const FRAME := 0x40_0000
  const LOAD_OFFSET := 0x4_8000
  const UNUSED: u32 := 0xFFFF_FFFF
  const PLACEHOLDER: u32 := 0xFFFF_FFFE

  datatype Table = NoTable | TerminalTable | FileTable | DirectoryTable | RtcTable

  /** A descriptor slot; `inode` UNUSED means closed, `pos` doubles as the clock's countdown. */
  datatype Fd = Fd(table: Table, inode: u32, pos: u32, flags: u32)

  /** A saved kernel stack frame. */
  datatype Context = Context(esp: u32, ebp: u32)

  /** A process control block; `parent` is the parent's index, -1 for NULL. */
  datatype Pcb = Pcb(fds: seq<Fd>, context: Context, pid: int, parent: int, terminal: int, args: seq<byte>)

  /**
   * The kernel's globals. `owner` is the process whose table `file_descriptors` points to, `page` the
   * physical 4 MB frame behind directory entry 32, `memory` the six user frames from 8 MB on.
   */
  datatype State = State(active: seq<int>, tops: seq<int>, current: int, pcbs: seq<Pcb>,
                         owner: int, page: int, esp0: u32, memory: seq<byte>,
                         count: int, index: int, shown: int, started: seq<bool>)

  datatype Event =
    | Execute(command: seq<byte>, frame: Context)
    | Halt(status: u32)
    | Tick(frame: Context)
    | Display(terminal: int, frame: Context)
    | Open(name: seq<byte>)
    | Close(fd: int)
    | Read(fd: int, nbytes: int)
    | Write(fd: int, freq: bv32, nbytes: int)
    | Store(offset: nat, value: byte)

  datatype Output =
    | Nothing
    | Returned(value: int)
    | Delivered(bytes: seq<byte>)
    | Waiting
    | Console
    | Started(pid: int)
    | Resumed(pid: int, context: Context, status: u32)

  // ----- sizes and ranges that every step keeps

  predicate PcbShape(p: Pcb) {
    |p.fds| == SLOTS && 0 <= p.terminal < TERMINALS && -1 <= p.parent < PIDS
  }

  predicate Shape(s: State) {
    && |s.active| == PIDS && |s.tops| == TERMINALS && |s.pcbs| == PIDS && |s.started| == TERMINALS
    && |s.memory| == PIDS * FRAME
    && (forall p | 0 <= p < PIDS :: PcbShape(s.pcbs[p]))
    && (forall t | 0 <= t < TERMINALS :: -1 <= s.tops[t] < PIDS)
    && 0 <= s.current < PIDS && s.owner == s.current
    && 0 <= s.index < TERMINALS && 0 <= s.count <= QUANTUM && 0 <= s.shown < TERMINALS
  }

  /** Open file slots name inodes of the image, and directory entry 32 maps a user frame. */
  ghost predicate Usable(img: Image, s: State) {
    && WellFormed(img) && Shape(s) && 2 <= s.page < 2 + PIDS
    && forall p | 0 <= p < PIDS :: Resolved(img, s.pcbs[p].fds)
  }

  ghost predicate Resolved(img: Image, fds: seq<Fd>) {
    forall i | 0 <= i < |fds| :: fds[i].table == FileTable && fds[i].inode != UNUSED ==> HasFile(img, fds[i].inode)
  }

  // ----- process creation

  function FirstFree(active: seq<int>, p: nat): (r: int)
    requires p <= |active|
    ensures r == -1 ==> forall q | p <= q < |active| :: active[q] != -1
    ensures r != -1 ==> p <= r < |active| && active[r] == -1 && forall q | p <= q < r :: active[q] != -1
    decreases |active| - p
  {
    if p == |active| then -1 else if active[p] == -1 then p else FirstFree(active, p + 1)
  }

  function SpaceAt(command: seq<byte>, i: nat): (r: nat)
    requires i <= |command|
    ensures i <= r <= |command| && SPACE !in command[i..r] && (r < |command| ==> command[r] == SPACE)
    decreases |command| - i
  {
    if i == |command| || command[i] == SPACE then i else SpaceAt(command, i + 1)
  }

  function CommandName(command: seq<byte>): seq<byte> {
    command[..SpaceAt(command, 0)]
  }

  function CommandArgs(command: seq<byte>): seq<byte> {
    var n := SpaceAt(command, 0);
    if n < |command| then command[n + 1..] else []
  }

  /** What process_create demands of a command: its two local buffers hold 32 and 128 bytes. */
  predicate FitsBuffers(command: seq<byte>) {
    IsText(command) && |CommandName(command)| < 32 && |CommandArgs(command)| < 128
  }

  ghost predicate IsElf(bytes: seq<byte>) {
    |bytes| >= 4 && bytes[0] == 0x7F && bytes[1] == 69 && bytes[2] == 76 && bytes[3] == 70
  }

  /** The inode of the program a command names, when it is an ELF file. */
  ghost function Program(img: Image, command: seq<byte>): (r: Option<u32>)
    requires WellFormed(img)
    ensures r.Some? ==> HasFile(img, r.value)
  {
    var e := FindFrom(img.entries, CommandName(command), 0);
    if e == -1 || img.entries[e].kind != FILE_TYPE then None
    else
      assert WellFormedEntry(img.entries[e], |img.inodes|);
      if IsElf(Contents(img, img.entries[e].inode)) then Some(img.entries[e].inode) else None
  }

  /** Address a lies in process pid's own 8 KB of kernel memory, which has its control block at the bottom. */
  predicate InBlock(a: int, pid: int) {
    0x80_0000 - 0x2000 * (1 + pid) <= a < 0x80_0000 - 0x2000 * pid
  }

  /** The last word of process pid's block. */
  predicate IsStackTop(a: int, pid: int) {
    InBlock(a, pid) && a + 4 == 0x80_0000 - 0x2000 * pid
  }

  function KernelStack(pid: int): u32
    requires 0 <= pid < PIDS
  {
    0x80_0000 - 0x2000 * pid - 4
  }

  /** Slots 0 and 1 become the terminal; every other slot is closed but keeps its stale table. */
  function FreshFds(fds: seq<Fd>): seq<Fd> {
    seq(|fds|, i requires 0 <= i < |fds| =>
      if i < 2 then fds[i].(table := TerminalTable, inode := PLACEHOLDER) else fds[i].(inode := UNUSED))
  }

  function NewPcb(was: Pcb, pid: int, terminal: int, parent: int, args: seq<byte>): Pcb
    requires 0 <= pid < PIDS
  {
    Pcb(FreshFds(was.fds), was.context.(esp := KernelStack(pid)), pid, parent, terminal, args)
  }

  /** process_create once a program and a slot are found. */
  ghost function Created(img: Image, s: State, inode: u32, pid: int, terminal: int, parent: int, args: seq<byte>): State
    requires HasFile(img, inode) && 0 <= pid < PIDS && |s.active| == |s.pcbs| == PIDS && |s.memory| == PIDS * FRAME
  {
    s.(active := s.active[pid := 0],
       page := 2 + pid,
       memory := Overwrite(s.memory, pid * FRAME + LOAD_OFFSET, Contents(img, inode)),
       pcbs := s.pcbs[pid := NewPcb(s.pcbs[pid], pid, terminal, parent, args)])
  }

  /** process_start of a created process; `frame` is saved when something was running. */
  function Launched(s: State, pid: int, frame: Context): State
    requires 0 <= pid < PIDS && |s.active| == |s.pcbs| == PIDS && -1 <= s.current < PIDS
    requires |s.tops| == TERMINALS && 0 <= s.pcbs[pid].terminal < TERMINALS
  {
    var saved := if s.current != -1 then s.pcbs[s.current := s.pcbs[s.current].(context := frame)] else s.pcbs;
    s.(active := s.active[pid := 1], page := 2 + pid, pcbs := saved, current := pid, owner := pid,
       tops := s.tops[s.pcbs[pid].terminal := pid], esp0 := KernelStack(pid))
  }

  /** process_start(process_create(command, terminal, parent)); pid -1 reports failure. */
  ghost function Spawn(img: Image, s: State, command: seq<byte>, terminal: int, parent: int, frame: Context): (r: (State, int))
    requires WellFormed(img) && |s.active| == |s.pcbs| == PIDS && |s.memory| == PIDS * FRAME && |s.tops| == TERMINALS
    requires -1 <= s.current < PIDS && 0 <= terminal < TERMINALS
  {
    var pid := FirstFree(s.active, 0);
    match Program(img, command)
    case None => (s, -1)
    case Some(inode) =>
      if pid == -1 then (s, -1)
      else (Launched(Created(img, s, inode, pid, terminal, parent, CommandArgs(command)), pid, frame), pid)
  }

  const TOO_MANY := Ascii("Too many processes\n")

  /** What process_create prints: one message, when there is a program and no slot for it. */
  ghost function Complaint(img: Image, active: seq<int>, command: seq<byte>): seq<byte>
    requires WellFormed(img)
  {
    if Program(img, command).Some? && FirstFree(active, 0) == -1 then TOO_MANY else []
  }

  // ----- system calls

  ghost function ExecuteStep(img: Image, s: State, command: seq<byte>, frame: Context): (State, Output)
    requires WellFormed(img) && Shape(s)
  {
    var (next, pid) := Spawn(img, s, command, s.pcbs[s.current].terminal, s.current, frame);
    (next, if pid == -1 then Returned(-1) else Started(pid))
  }

  /** The close entry of an open slot's table. */
  function ClosedFd(fd: Fd): Fd {
    match fd.table
    case RtcTable => Fd(NoTable, UNUSED, 0, 0)
    case FileTable => fd.(inode := UNUSED)
    case DirectoryTable => fd.(inode := UNUSED)
    case _ => fd
  }

  function ClosedAll(fds: seq<Fd>): seq<Fd> {
    seq(|fds|, i requires 0 <= i < |fds| => if i < 2 || fds[i].inode == UNUSED then fds[i] else ClosedFd(fds[i]))
  }

  function WithFds(s: State, pid: int, fds: seq<Fd>): State
    requires 0 <= pid < |s.pcbs|
  {
    s.(pcbs := s.pcbs[pid := s.pcbs[pid].(fds := fds)])
  }

  /** halt_handler: back to the parent, or a new shell in place of a base shell. */
  ghost function HaltStep(img: Image, s: State, status: u32): (State, Output)
    requires WellFormed(img) && Shape(s)
  {
    var closed := WithFds(s, s.owner, ClosedAll(s.pcbs[s.owner].fds));
    var pid := s.current;
    var me := closed.pcbs[pid];
    var gone := closed.(active := s.active[pid := -1]);
    if me.parent == -1 then
      var (next, shell) := Spawn(img, gone.(current := -1), SHELL, me.terminal, -1, me.context);
      (next, if shell == -1 then Returned(0) else Started(shell))
    else
      var parent := closed.pcbs[me.parent];
      (gone.(current := me.parent, owner := me.parent, page := 2 + me.parent, esp0 := KernelStack(me.parent),
             tops := s.tops[parent.terminal := me.parent]),
       Resumed(me.parent, parent.context, status))
  }

  const SHELL: seq<byte> := [115, 104, 101, 108, 108]

  function FreeFd(fds: seq<Fd>, i: nat): (r: int)
    requires i <= |fds|
    ensures r == -1 ==> forall k | i <= k < |fds| :: fds[k].inode != UNUSED
    ensures r != -1 ==> i <= r < |fds| && fds[r].inode == UNUSED && forall k | i <= k < r :: fds[k].inode != UNUSED
    decreases |fds| - i
  {
    if i == |fds| then -1 else if fds[i].inode == UNUSED then i else FreeFd(fds, i + 1)
  }

  predicate IsRtcName(name: seq<byte>) {
    |name| >= 3 && name[0] == 114 && name[1] == 116 && name[2] == 99
  }

  predicate IsDotName(name: seq<byte>) {
    |name| >= 1 && name[0] == 46
  }

  /** The slot contents open installs for a name, or nothing when the name does not resolve. */
  function Opening(img: Image, name: seq<byte>): Option<Fd>
    requires |img.entries| == ENTRIES
  {
    if IsRtcName(name) then Some(Fd(RtcTable, 0, 512, 512))
    else
      var e := FindFrom(img.entries, name, 0);
      if e == -1 then None
      else if IsDotName(name) then
        if img.entries[e].kind == DIRECTORY_TYPE then Some(Fd(DirectoryTable, img.entries[e].inode, 0, 0)) else None
      else if img.entries[e].kind == FILE_TYPE then Some(Fd(FileTable, img.entries[e].inode, 0, 0)) else None
  }

  function OpenStep(img: Image, s: State, name: seq<byte>): (State, Output)
    requires |img.entries| == ENTRIES && Shape(s)
  {
    var fds := s.pcbs[s.owner].fds;
    var fd := FreeFd(fds, 2);
    match Opening(img, name)
    case None => (s, Returned(-1))
    case Some(slot) => if fd == -1 then (s, Returned(-1)) else (WithFds(s, s.owner, fds[fd := slot]), Returned(fd))
  }

  predicate ValidFd(fds: seq<Fd>, fd: int) {
    0 <= fd < |fds| && fds[fd].inode != UNUSED
  }

  function CloseStep(s: State, fd: int): (State, Output)
    requires Shape(s)
  {
    var fds := s.pcbs[s.owner].fds;
    if !ValidFd(fds, fd) || fds[fd].table !in {RtcTable, FileTable, DirectoryTable} then (s, Returned(-1))
    else (WithFds(s, s.owner, fds[fd := ClosedFd(fds[fd])]), Returned(0))
  }

  /** file_read, directory_read and the start of rtc_read; terminal reads belong to the console. */
  ghost function ReadStep(img: Image, s: State, fd: int, nbytes: int): (State, Output)
    requires Usable(img, s)
  {
    var fds := s.pcbs[s.owner].fds;
    if !ValidFd(fds, fd) then (s, Returned(-1))
    else
      var slot := fds[fd];
      match slot.table
      case RtcTable => (WithFds(s, s.owner, fds[fd := slot.(pos := slot.flags)]), Waiting)
      case FileTable =>
        if nbytes <= 0 then (s, Returned(-1))
        else
          var bytes := Slice(Contents(img, slot.inode), slot.pos, nbytes);
          (WithFds(s, s.owner, fds[fd := slot.(pos := Wrap32(slot.pos + |bytes|))]), Delivered(bytes))
      case DirectoryTable =>
        if slot.pos >= ENTRIES || nbytes < 0 then (s, Returned(-1))
        else
          var name := CString(img.entries[slot.pos].name);
          (WithFds(s, s.owner, fds[fd := slot.(pos := slot.pos + 1)]), Delivered(name[..Min(nbytes, |name|)]))
      case _ => (s, Console)
  }

  /** rtc_write; files and directories refuse writes, terminal writes belong to the console. */
  function WriteStep(s: State, fd: int, freq: bv32, nbytes: int): (State, Output)
    requires Shape(s)
  {
    var fds := s.pcbs[s.owner].fds;
    if !ValidFd(fds, fd) then (s, Returned(-1))
    else
      match fds[fd].table
      case RtcTable =>
        if nbytes != 4 || !Accepted(freq) then (s, Returned(-1))
        else (WithFds(s, s.owner, fds[fd := fds[fd].(pos := Cycles(freq), flags := Cycles(freq))]), Returned(4))
      case TerminalTable => (s, Console)
      case _ => (s, Returned(-1))
  }

  /** A user-mode store to the program's own 4 MB: it lands in the frame that entry 32 maps. */
  function StoreStep(s: State, offset: nat, value: byte): (State, Output)
    requires Shape(s) && offset < FRAME && 2 <= s.page < 2 + PIDS
  {
    (s.(memory := s.memory[(s.page - 2) * FRAME + offset := value]), Nothing)
  }

  // ----- interrupts

  function Counted(fd: Fd): Fd {
    if fd.table == RtcTable && fd.pos > 0 then fd.(pos := fd.pos - 1) else fd
  }

  function CountedFds(fds: seq<Fd>): seq<Fd> {
    seq(|fds|, i requires 0 <= i < |fds| => if i < 2 then fds[i] else Counted(fds[i]))
  }

  function CountTop(pcbs: seq<Pcb>, top: int): seq<Pcb>
    requires -1 <= top < |pcbs|
  {
    if top == -1 then pcbs else pcbs[top := pcbs[top].(fds := CountedFds(pcbs[top].fds))]
  }

  function CountTops(pcbs: seq<Pcb>, tops: seq<int>, j: nat): (r: seq<Pcb>)
    requires j <= |tops| && forall t | 0 <= t < |tops| :: -1 <= tops[t] < |pcbs|
    ensures |r| == |pcbs|
    decreases |tops| - j
  {
    if j == |tops| then pcbs else CountTops(CountTop(pcbs, tops[j]), tops, j + 1)
  }

  /** process_switch. */
  function Switched(s: State, pid: int, frame: Context): State
    requires Shape(s) && 0 <= pid < PIDS
  {
    s.(pcbs := s.pcbs[s.current := s.pcbs[s.current].(context := frame)],
       esp0 := KernelStack(pid), current := pid, owner := pid, page := 2 + pid)
  }

  /** The round robin: at most `tries` terminals after `index` are looked at. */
  function Rotate(s: State, frame: Context, tries: nat): State
    requires Shape(s)
    decreases tries
  {
    if tries == 0 then s
    else
      var next := s.(index := (s.index + 1) % 3);
      var top := s.tops[next.index];
      if top != -1 && top != s.current then Switched(next, top, frame) else Rotate(next, frame, tries - 1)
  }

  function TickStep(s: State, frame: Context): (State, Output)
    requires Shape(s)
  {
    var counted := s.(pcbs := CountTops(s.pcbs, s.tops, 0), count := if s.count > 0 then s.count - 1 else s.count);
    CountTopsShape(s.pcbs, s.tops, 0);
    if counted.count == 0 then (Rotate(counted.(count := QUANTUM), frame, 3), Nothing) else (counted, Nothing)
  }

  lemma CountTopsShape(pcbs: seq<Pcb>, tops: seq<int>, j: nat)
    requires j <= |tops| && forall t | 0 <= t < |tops| :: -1 <= tops[t] < |pcbs|
    requires forall p | 0 <= p < |pcbs| :: PcbShape(pcbs[p])
    ensures forall p | 0 <= p < |pcbs| :: PcbShape(CountTops(pcbs, tops, j)[p])
    decreases |tops| - j
  {
  }

  /** switch_terminal, process side: a terminal shown for the first time gets its own shell. */
  ghost function DisplayStep(img: Image, s: State, terminal: int, frame: Context): (State, Output)
    requires WellFormed(img) && Shape(s) && 0 <= terminal < TERMINALS
  {
    if terminal == s.shown || (FirstFree(s.active, 0) == -1 && !s.started[terminal]) then (s, Nothing)
    else if s.started[terminal] then (s.(shown := terminal), Nothing)
    else
      var (next, shell) := Spawn(img, s.(shown := terminal, started := s.started[terminal := true]), SHELL, terminal, -1, frame);
      (next, if shell == -1 then Nothing else Started(shell))
  }

  // ----- the machine

  /** Arguments the source does not check and its callers must supply. */
  predicate Admissible(e: Event) {
    match e
    case Execute(command, _) => FitsBuffers(command)
    case Display(terminal, _) => 0 <= terminal < TERMINALS
    case Open(name) => IsText(name)
    case Store(offset, _) => offset < FRAME
    case Read(_, nbytes) => nbytes < TWO_TO_THE_32 / 2
    case _ => true
  }

  ghost function Step(img: Image, s: State, e: Event): (State, Output)
    requires Usable(img, s) && Admissible(e)
  {
    match e
    case Execute(command, frame) => ExecuteStep(img, s, command, frame)
    case Halt(status) => HaltStep(img, s, status)
    case Tick(frame) => TickStep(s, frame)
    case Display(terminal, frame) => DisplayStep(img, s, terminal, frame)
    case Open(name) => OpenStep(img, s, name)
    case Close(fd) => CloseStep(s, fd)
    case Read(fd, nbytes) => ReadStep(img, s, fd, nbytes)
    case Write(fd, freq, nbytes) => WriteStep(s, fd, freq, nbytes)
    case Store(offset, value) => StoreStep(s, offset, value)
  }
}
