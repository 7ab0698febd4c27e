/** What a program can count on in every run: its stack, clock, files, descriptors and turns. */
module ProcessHistories {
  import opened Machine
  import opened FileSystem
  import opened Processes
  import opened ProcessStacks
  import opened ProcessSteps
  import opened ProcessEffects
  import opened ProcessRuns
  import opened ProcessClocks
  import opened ProcessCalls

  // ----- kernel stacks

  /**
   * In every state of a run the processor holds the top of the running process's own block; states with
   * different running processes hold tops of blocks that share no address.
   */
  lemma KernelStacksApart(img: Image, cs: seq<Config>, es: seq<Event>, i: nat, j: nat)
    requires IsRun(img, cs, es) && i <= |es| && j <= |es|
    ensures var s, n := cs[i].s, cs[j].s;
      IsStackTop(s.esp0, s.current)
      && (s.current != n.current ==> !InBlock(n.esp0, s.current) && forall a :: !(InBlock(a, s.current) && InBlock(a, n.current)))
  {
    RunKeeps(img, cs, es, i);
    RunKeeps(img, cs, es, j);
    StackIsOwn(img, cs[i].s, cs[i].k);
    StackIsOwn(img, cs[j].s, cs[j].k);
  }

  // ----- clock rates

  /** Descriptor fd of live process p is a clock of this period. */
  ghost predicate ClockOf(s: State, p: int, fd: int, period: int) {
    Live(s, p) && IsClock(s, p, fd) && |s.pcbs[p].fds| == 8 && s.pcbs[p].fds[fd].flags == period
  }

  predicate IsWriteOf(current: int, e: Event, p: int, fd: int) {
    current == p && e.Write? && e.fd == fd
  }

  lemma OwnCallKeepsPeriod(img: Image, s: State, k: Stacks, e: Event, fd: int, period: int)
    requires Can(img, s, k, e) && IsDescriptorEvent(e) && e != Close(fd) && !(e.Write? && e.fd == fd)
    requires ClockOf(s, s.current, fd, period)
    ensures var n := Step(img, s, e).0;
      |n.pcbs| == 6 && IsClock(n, s.current, fd) && |n.pcbs[s.current].fds| == 8 && n.pcbs[s.current].fds[fd].flags == period
  {
    OpenSlotIsSound(img, s, k, fd);
    match e
    case Read(_, _) =>
    case Open(_) =>
    case Close(_) =>
    case Write(_, _, _) =>
    case Store(_, _) =>
  }

  /** A clock keeps its period in every step that neither writes nor closes it. */
  lemma PeriodStays(img: Image, s: State, k: Stacks, e: Event, p: int, fd: int, period: int)
    requires Can(img, s, k, e) && ClockOf(s, p, fd, period)
    requires KeepsOpen(s.current, e, p, fd) && !IsWriteOf(s.current, e, p, fd)
    ensures ClockOf(Step(img, s, e).0, p, fd, period)
  {
    if p != s.current { StepLeaves(img, s, k, e, p); }
    else {
      RunningSurvives(img, s, k, e);
      if IsDescriptorEvent(e) { OwnCallKeepsPeriod(img, s, k, e, fd, period); }
    }
  }

  ghost predicate LeavesRateAt(cs: seq<Config>, es: seq<Event>, p: int, fd: int, n: int) {
    0 <= n < |es| && n < |cs| && KeepsOpen(cs[n].s.current, es[n], p, fd) && !IsWriteOf(cs[n].s.current, es[n], p, fd)
  }

  /** Between steps i and j process p neither writes nor closes descriptor fd, nor halts. */
  ghost predicate LeavesRate(cs: seq<Config>, es: seq<Event>, p: int, fd: int, i: int, j: int) {
    forall n | i <= n < j :: LeavesRateAt(cs, es, p, fd, n)
  }

  lemma {:induction false} PeriodKept(img: Image, cs: seq<Config>, es: seq<Event>, p: int, fd: int, period: int, i: nat, j: nat)
    requires IsRun(img, cs, es) && i <= j <= |es| && ClockOf(cs[i].s, p, fd, period) && LeavesRate(cs, es, p, fd, i, j)
    ensures ClockOf(cs[j].s, p, fd, period)
    decreases j
  {
    if i < j {
      PeriodKept(img, cs, es, p, fd, period, i, j - 1);
      RunKeeps(img, cs, es, j - 1);
      assert LeavesRateAt(cs, es, p, fd, j - 1);
      PeriodStays(img, cs[j - 1].s, cs[j - 1].k, es[j - 1], p, fd, period);
    }
  }

  /** The wait of p's read at step r for its clock is over after step j. */
  ghost predicate WaitOver(cs: seq<Config>, p: int, fd: int, j: nat) {
    j < |cs| && IsClock(cs[j].s, p, fd) && cs[j].s.pcbs[p].fds[fd].pos == 0
  }

  /** p reads its clock fd at step r and is blocked in that read until step j. */
  ghost predicate WaitsFor(cs: seq<Config>, es: seq<Event>, p: int, fd: int, r: nat, j: nat) {
    r < j <= |es| < |cs| && IsReadOf(cs[r].s.current, es[r], p, fd) && Blocked(cs, es, p, r + 1, j)
  }

  lemma Scaled(period: nat, ticks: nat, f: nat)
    requires period * f == 1024
    ensures ticks >= period <==> ticks * f >= 1024
  {
    if ticks >= period {
      assert ticks * f == (ticks - period) * f + period * f;
    } else {
      assert period * f == ticks * f + (period - ticks) * f;
      assert f > 0 && (period - ticks) * f >= f;
    }
  }

  lemma WaitIsPeriod(img: Image, cs: seq<Config>, es: seq<Event>, p: int, fd: int, period: nat, f: nat, i: nat, r: nat, j: nat)
    requires IsRun(img, cs, es) && i <= r && WaitsFor(cs, es, p, fd, r, j) && LeavesRate(cs, es, p, fd, i, r)
    requires ClockOf(cs[i].s, p, fd, period) && period * f == 1024
    ensures WaitOver(cs, p, fd, j) <==> Ticks(es, r + 1, j) * f >= 1024
  {
    PeriodKept(img, cs, es, p, fd, period, i, r);
    RtcReadCompletes(img, cs, es, fd, r, j);
    Scaled(period, Ticks(es, r + 1, j), f);
  }

  /**
   * After an accepted write of frequency f, whatever runs in between, a read of the clock is complete
   * exactly when f times the ticks since it began have reached 1024.
   */
  lemma WrittenRate(img: Image, cs: seq<Config>, es: seq<Event>, fd: int, i: nat, r: nat, j: nat)
    requires IsRun(img, cs, es) && i < r < |es| && es[i].Write? && es[i].fd == fd && cs[i + 1].out == Returned(4)
    requires var p := cs[i].s.current;
      IsClock(cs[i].s, p, fd) && LeavesRate(cs, es, p, fd, i + 1, r) && WaitsFor(cs, es, p, fd, r, j)
    ensures WaitOver(cs, cs[i].s.current, fd, j) <==> Ticks(es, r + 1, j) * (es[i].freq as int) >= 1024
  {
    RunKeeps(img, cs, es, i);
    var s, k, e := cs[i].s, cs[i].k, es[i];
    CurrentIsTop(img, s, k);
    ClockWriteGives(img, s, k, fd, e.freq, e.nbytes);
    var period := cs[i + 1].s.pcbs[s.current].fds[fd].flags;
    WaitIsPeriod(img, cs, es, s.current, fd, period, e.freq as int, i + 1, r, j);
  }

  /** A clock that has not been written since its open runs at 2 Hz. */
  lemma OpenedRate(img: Image, cs: seq<Config>, es: seq<Event>, fd: int, i: nat, r: nat, j: nat)
    requires IsRun(img, cs, es) && i < r < |es| && es[i].Open? && BeginsWith(es[i].name, [114, 116, 99])
    requires cs[i + 1].out == Returned(fd) && fd != -1
    requires LeavesRate(cs, es, cs[i].s.current, fd, i + 1, r) && WaitsFor(cs, es, cs[i].s.current, fd, r, j)
    ensures WaitOver(cs, cs[i].s.current, fd, j) <==> Ticks(es, r + 1, j) * 2 >= 1024
  {
    RunKeeps(img, cs, es, i);
    var s, k := cs[i].s, cs[i].k;
    CurrentIsTop(img, s, k);
    OpenIff(img, s, k, es[i].name);
    WaitIsPeriod(img, cs, es, s.current, fd, 512, 2, i + 1, r, j);
  }

  // ----- files

  /** The read at step n is of a positive size, through the descriptor that the open of a file at step i returned. */
  ghost predicate ReadsOpened(cs: seq<Config>, es: seq<Event>, fd: int, i: nat, n: nat) {
    && i < n < |es| < |cs| && es[i].Open? && !IsRtcName(es[i].name) && !IsDotName(es[i].name)
    && cs[i + 1].out == Returned(fd) && fd != -1 && StaysOpen(cs, es, cs[i].s.current, fd, i + 1, n)
    && IsReadOf(cs[n].s.current, es[n], cs[i].s.current, fd) && es[n].nbytes > 0
  }

  /** `done` is the beginning of the file, and `more` its next bytes: as many as asked for, or all that are left. */
  ghost predicate Continues(all: seq<byte>, done: seq<byte>, more: seq<byte>, nbytes: int) {
    && done + more <= all && |more| <= nbytes && (|more| < nbytes ==> done + more == all)
  }

  /** What has been read since the open is the beginning of the first file of that name, up to the position. */
  lemma ReadSoFar(img: Image, cs: seq<Config>, es: seq<Event>, fd: int, i: nat, n: nat, e: int)
    requires IsRun(img, cs, es) && ReadsOpened(cs, es, fd, i, n) && FirstNamed(img, es[i].name, e)
    ensures HasFile(img, img.entries[e].inode) && OpenAt(cs[n].s, cs[i].s.current, fd, FileTable)
    ensures var slot, all := cs[n].s.pcbs[cs[i].s.current].fds[fd], Contents(img, img.entries[e].inode);
      slot.inode == img.entries[e].inode && slot.pos <= |all|
      && Chunks(cs, es, cs[i].s.current, fd, i + 1, n) == all[..slot.pos]
  {
    RunKeeps(img, cs, es, i);
    OpenFindsFile(img, cs[i].s, cs[i].k, es[i].name, fd);
    FindsFirstNamed(img, es[i].name);
    ReadsAreSequential(img, cs, es, cs[i].s.current, fd, i + 1, n);
  }

  lemma ReadTakesPiece(img: Image, cs: seq<Config>, es: seq<Event>, p: int, fd: int, n: nat)
    requires IsRun(img, cs, es) && n < |es| && IsReadOf(cs[n].s.current, es[n], p, fd) && es[n].nbytes > 0
    requires OpenAt(cs[n].s, p, fd, FileTable) && HasFile(img, cs[n].s.pcbs[p].fds[fd].inode)
    ensures cs[n + 1].out.Delivered?
    ensures var slot := cs[n].s.pcbs[p].fds[fd];
      PieceAt(Contents(img, slot.inode), slot.pos, cs[n + 1].out.bytes, es[n].nbytes)
  {
    RunKeeps(img, cs, es, n);
    FileReadAdvances(img, cs[n].s, cs[n].k, fd, es[n].nbytes);
  }

  lemma PieceContinues(all: seq<byte>, at: nat, more: seq<byte>, nbytes: int)
    requires PieceAt(all, at, more, nbytes)
    ensures Continues(all, all[..at], more, nbytes)
  {
    assert all[..at] + more == all[..at + |more|];
    assert all[..|all|] == all;
  }

  lemma ReadContinues(img: Image, cs: seq<Config>, es: seq<Event>, fd: int, i: nat, n: nat, e: int)
    requires IsRun(img, cs, es) && ReadsOpened(cs, es, fd, i, n) && FirstNamed(img, es[i].name, e)
    ensures HasFile(img, img.entries[e].inode) && cs[n + 1].out.Delivered?
    ensures Continues(Contents(img, img.entries[e].inode), Chunks(cs, es, cs[i].s.current, fd, i + 1, n),
                      cs[n + 1].out.bytes, es[n].nbytes)
  {
    ReadSoFar(img, cs, es, fd, i, n, e);
    ReadTakesPiece(img, cs, es, cs[i].s.current, fd, n);
    PieceContinues(Contents(img, img.entries[e].inode), cs[n].s.pcbs[cs[i].s.current].fds[fd].pos,
                   cs[n + 1].out.bytes, es[n].nbytes);
  }

  /**
   * Reading a file until a read delivers nothing yields exactly the file: a read of a positive size delivers
   * nothing exactly when what was read before, since the open, is the whole first file of that name.
   */
  lemma ReadsUntilEmptyIff(img: Image, cs: seq<Config>, es: seq<Event>, fd: int, i: nat, n: nat, e: int)
    requires IsRun(img, cs, es) && ReadsOpened(cs, es, fd, i, n) && FirstNamed(img, es[i].name, e)
    ensures HasFile(img, img.entries[e].inode)
    ensures cs[n + 1].out == Delivered([])
      <==> Chunks(cs, es, cs[i].s.current, fd, i + 1, n) == Contents(img, img.entries[e].inode)
  {
    ReadContinues(img, cs, es, fd, i, n, e);
    var done, more := Chunks(cs, es, cs[i].s.current, fd, i + 1, n), cs[n + 1].out.bytes;
    if more == [] { assert done + more == done; }
  }

  // ----- descriptors

  /** Of p's descriptors from 2 on exactly the first m are open. */
  ghost predicate OpenedTo(s: State, p: int, m: nat) {
    && Live(s, p) && |s.pcbs[p].fds| == 8 && forall i | 2 <= i < 8 :: IsOpen(s.pcbs[p].fds[i]) <==> i < 2 + m
  }

  predicate IsCloseBy(current: int, e: Event, p: int) {
    current == p && (e.Close? || e.Halt?)
  }

  /** Step n is an open by p of a name that resolves. */
  ghost predicate OpensAt(img: Image, cs: seq<Config>, es: seq<Event>, p: int, n: nat) {
    n < |es| && n < |cs| && cs[n].s.current == p && es[n].Open? && Resolves(img, es[n].name)
  }

  /** How many of p's opens in steps i to j - 1 are of names that resolve. */
  ghost function OpensBy(img: Image, cs: seq<Config>, es: seq<Event>, p: int, i: nat, j: int): (m: nat)
    decreases j
  {
    if j <= i then 0 else OpensBy(img, cs, es, p, i, j - 1) + (if OpensAt(img, cs, es, p, j - 1) then 1 else 0)
  }

  ghost predicate ClosesNothing(cs: seq<Config>, es: seq<Event>, p: int, i: int, j: int) {
    forall n | i <= n < j :: 0 <= n < |es| && n < |cs| && !IsCloseBy(cs[n].s.current, es[n], p)
  }

  lemma OpenTakesNext(img: Image, s: State, k: Stacks, name: seq<byte>, m: nat)
    requires Can(img, s, k, Open(name)) && OpenedTo(s, s.current, m) && Resolves(img, name)
    ensures var (n, out) := Step(img, s, Open(name));
      OpenedTo(n, s.current, m + 1) && out == Returned(if m < 6 then 2 + m else -1)
  {
    OpenIff(img, s, k, name);
    if m < 6 { assert !IsOpen(s.pcbs[s.current].fds[2 + m]); }
  }

  lemma OtherCallKeepsOpened(img: Image, s: State, k: Stacks, e: Event, m: nat)
    requires Can(img, s, k, e) && IsDescriptorEvent(e) && !e.Close? && !(e.Open? && Resolves(img, e.name))
    requires OpenedTo(s, s.current, m)
    ensures var n := Step(img, s, e).0;
      |n.pcbs| == 6 && |n.pcbs[s.current].fds| == 8
      && forall i | 2 <= i < 8 :: IsOpen(n.pcbs[s.current].fds[i]) <==> IsOpen(s.pcbs[s.current].fds[i])
  {
    match e
    case Read(_, _) =>
    case Open(name) => OpenIff(img, s, k, name);
    case Write(_, _, _) =>
    case Store(_, _) =>
  }

  lemma StepKeepsOpened(img: Image, s: State, k: Stacks, e: Event, p: int, m: nat)
    requires Can(img, s, k, e) && OpenedTo(s, p, m) && !IsCloseBy(s.current, e, p)
    requires !(s.current == p && e.Open? && Resolves(img, e.name))
    ensures OpenedTo(Step(img, s, e).0, p, m)
  {
    if p != s.current { StepLeaves(img, s, k, e, p); }
    else {
      RunningSurvives(img, s, k, e);
      if IsDescriptorEvent(e) { OtherCallKeepsOpened(img, s, k, e, m); }
    }
  }

  lemma {:induction false} OpenedSoFar(img: Image, cs: seq<Config>, es: seq<Event>, p: int, i: nat, j: nat)
    requires IsRun(img, cs, es) && i <= j <= |es| && OpenedTo(cs[i].s, p, 0) && ClosesNothing(cs, es, p, i, j)
    ensures OpenedTo(cs[j].s, p, OpensBy(img, cs, es, p, i, j))
    decreases j
  {
    if i < j {
      OpenedSoFar(img, cs, es, p, i, j - 1);
      RunKeeps(img, cs, es, j - 1);
      var s, k, e, m := cs[j - 1].s, cs[j - 1].k, es[j - 1], OpensBy(img, cs, es, p, i, j - 1);
      if OpensAt(img, cs, es, p, j - 1) { OpenTakesNext(img, s, k, e.name, m); } else { StepKeepsOpened(img, s, k, e, p, m); }
    }
  }

  /**
   * From six closed descriptors on, while a process closes none, its opens of names that resolve return
   * 2, 3, 4, 5, 6, 7 and then -1, whatever runs in between.
   */
  lemma OpensInOrder(img: Image, cs: seq<Config>, es: seq<Event>, p: int, i: nat, j: nat)
    requires IsRun(img, cs, es) && i <= j < |es| && OpenedTo(cs[i].s, p, 0) && ClosesNothing(cs, es, p, i, j)
    requires OpensAt(img, cs, es, p, j)
    ensures var m := OpensBy(img, cs, es, p, i, j); cs[j + 1].out == Returned(if m < 6 then 2 + m else -1)
  {
    OpenedSoFar(img, cs, es, p, i, j);
    RunKeeps(img, cs, es, j);
    OpenTakesNext(img, cs[j].s, cs[j].k, es[j].name, OpensBy(img, cs, es, p, i, j));
  }

  /** A process that execute has just started has none of the six open. */
  lemma StartsWithNoneOpen(img: Image, cs: seq<Config>, es: seq<Event>, i: nat)
    requires IsRun(img, cs, es) && i < |es| && es[i].Execute? && cs[i + 1].out.Started?
    ensures OpenedTo(cs[i + 1].s, cs[i + 1].s.current, 0)
  {
    RunKeeps(img, cs, es, i);
    var s, k, e := cs[i].s, cs[i].k, es[i];
    ExecuteLinks(img, s, k, e.command, e.frame);
    var c := FirstFree(s.active, 0);
    assert PcbShape(s.pcbs[c]);
    FreshFdsAre(s.pcbs[c].fds);
  }

  // ----- turns

  lemma {:induction false} RotateStays(s: State, frame: Context, tries: nat)
    requires Shape(s) && forall t | 0 <= t < 3 :: s.tops[t] == -1 || s.tops[t] == s.current
    ensures Rotate(s, frame, tries).current == s.current && Rotate(s, frame, tries).count == s.count
    decreases tries
  {
    if tries > 0 { RotateStays(s.(index := (s.index + 1) % 3), frame, tries - 1); }
  }

  lemma {:induction false} RotateMoves(s: State, frame: Context, tries: nat, t: int)
    requires Shape(s) && 0 <= t < 3 && s.tops[t] != -1 && s.tops[t] != s.current && Distance(s, t) <= tries
    ensures Rotate(s, frame, tries).current != s.current && Rotate(s, frame, tries).count == s.count
    decreases tries
  {
    var next := s.(index := (s.index + 1) % 3);
    if next.index != t && (s.tops[next.index] == -1 || s.tops[next.index] == s.current) {
      RotateMoves(next, frame, tries - 1, t);
    }
  }

  /** Some terminal other than the running process's is in use. */
  ghost predicate OthersWait(s: State) {
    |s.started| == 3 && 0 <= s.current < |s.pcbs| && exists t | 0 <= t < 3 :: s.started[t] && t != s.pcbs[s.current].terminal
  }

  /** A tick that ends a turn takes the processor exactly when another terminal is in use; any other tick does not. */
  lemma TickTurns(img: Image, s: State, k: Stacks, frame: Context)
    requires Inv(img, s, k)
    ensures var n := TickStep(s, frame).0;
      n.count == (if s.count <= 1 then 8 else s.count - 1) && (n.current != s.current <==> s.count <= 1 && OthersWait(s))
  {
    if s.count <= 1 {
      CountTopsShape(s.pcbs, s.tops, 0);
      var c := s.(pcbs := CountTops(s.pcbs, s.tops, 0), count := QUANTUM);
      if OthersWait(s) {
        var t :| 0 <= t < 3 && s.started[t] && t != s.pcbs[s.current].terminal;
        TopIsPid(s, t, k[t]);
        TopRuns(img, s, k, t);
        RotateMoves(c, frame, 3, t);
      } else {
        forall t | 0 <= t < 3 ensures s.tops[t] == -1 || s.tops[t] == s.current {
          if s.tops[t] != -1 { TopRuns(img, s, k, t); }
        }
        RotateStays(c, frame, 3);
      }
    }
  }

  /** What is left of the turn after k ticks since boot; the first tick already ends one. */
  function TurnLeft(k: nat): nat {
    if k == 0 then 0 else 8 - (k - 1) % 8
  }

  lemma TurnNext(k: nat)
    ensures TurnLeft(k + 1) == if TurnLeft(k) <= 1 then 8 else TurnLeft(k) - 1
    ensures TurnLeft(k) <= 1 <==> (k + 1) % 8 == 1
  {
  }

  lemma BootedCount(img: Image, c: Config)
    requires Booted(img, c)
    ensures c.s.count == 0
  {
  }

  lemma TurnStep(img: Image, cs: seq<Config>, es: seq<Event>, n: nat)
    requires IsRun(img, cs, es) && n < |es|
    ensures cs[n + 1].s.count == if !es[n].Tick? then cs[n].s.count else if cs[n].s.count <= 1 then 8 else cs[n].s.count - 1
  {
    RunKeeps(img, cs, es, n);
    var s, k, e := cs[n].s, cs[n].k, es[n];
    if e.Tick? { TickTurns(img, s, k, e.frame); } else { OthersKeepPatience(img, s, k, e); }
  }

  lemma TickTakes(img: Image, cs: seq<Config>, es: seq<Event>, n: nat)
    requires IsRun(img, cs, es) && n < |es| && es[n].Tick?
    ensures cs[n + 1].s.current != cs[n].s.current <==> cs[n].s.count <= 1 && OthersWait(cs[n].s)
  {
    RunKeeps(img, cs, es, n);
    TickTurns(img, cs[n].s, cs[n].k, es[n].frame);
  }

  lemma {:induction false} TurnAt(img: Image, cs: seq<Config>, es: seq<Event>, n: nat)
    requires IsRun(img, cs, es) && cs[0].s.count == 0 && n <= |es|
    ensures cs[n].s.count == TurnLeft(Ticks(es, 0, n))
    decreases n
  {
    if n > 0 {
      TurnAt(img, cs, es, n - 1);
      TurnStep(img, cs, es, n - 1);
      TurnNext(Ticks(es, 0, n - 1));
    }
  }

  /**
   * Whatever else happens, the k-th tick since boot takes the processor from the running process exactly
   * when k is 1, 9, 17, ... and another terminal is in use: a turn lasts 8 ticks.
   */
  lemma TurnsEndIff(img: Image, cs: seq<Config>, es: seq<Event>, n: nat)
    requires IsRun(img, cs, es) && Booted(img, cs[0]) && n < |es| && es[n].Tick?
    ensures cs[n + 1].s.current != cs[n].s.current <==> Ticks(es, 0, n + 1) % 8 == 1 && OthersWait(cs[n].s)
  {
    BootedCount(img, cs[0]);
    TurnAt(img, cs, es, n);
    TurnNext(Ticks(es, 0, n));
    TickTakes(img, cs, es, n);
  }
}
