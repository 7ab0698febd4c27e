/** Whole runs: suspended frames, memory isolation, fairness, clocks, file positions. */
module ProcessRuns {
  import opened Machine
  import opened FileSystem
  import opened Processes
  import opened ProcessStacks
  import opened ProcessSteps
  import opened ProcessEffects
  import opened ProcessCalls

  /** The machine, the stacks it implements, and the result of the step that led there. */
  datatype Config = Config(s: State, k: Stacks, out: Output)

  ghost predicate Sound(img: Image, c: Config) {
    WellFormed(img) && Program(img, SHELL).Some? && Inv(img, c.s, c.k)
  }

  ghost predicate Steps(img: Image, c: Config, e: Event, d: Config) {
    && Admissible(e) && (Usable(img, c.s) && |c.k| == TERMINALS ==>
         Step(img, c.s, e) == (d.s, d.out) && d.k == StacksAfter(c.s, c.k, e, d.out))
  }

  /** A run starts from a configuration that satisfies the invariant, and each next one is a step away. */
  ghost predicate FollowsAt(img: Image, cs: seq<Config>, es: seq<Event>, i: nat) {
    i < |cs| && i <= |es| && if i == 0 then Sound(img, cs[0]) else Steps(img, cs[i - 1], es[i - 1], cs[i])
  }

  /** Any number of events. */
  ghost predicate IsRun(img: Image, cs: seq<Config>, es: seq<Event>) {
    |cs| == |es| + 1 && forall i: nat | i < |cs| :: FollowsAt(img, cs, es, i)
  }

  /** Every configuration of every run satisfies the invariant. */
  lemma {:induction false} RunKeeps(img: Image, cs: seq<Config>, es: seq<Event>, n: nat)
    requires IsRun(img, cs, es) && n <= |es|
    ensures Sound(img, cs[n])
    ensures n < |es| ==> Can(img, cs[n].s, cs[n].k, es[n]) && Step(img, cs[n].s, es[n]) == (cs[n + 1].s, cs[n + 1].out)
    decreases n
  {
    if n > 0 { RunKeepsOn(img, cs, es, n - 1); }
    if n < |es| { assert FollowsAt(img, cs, es, n + 1); }
    if n == 0 { assert FollowsAt(img, cs, es, 0); }
  }

  lemma {:induction false} RunKeepsOn(img: Image, cs: seq<Config>, es: seq<Event>, n: nat)
    requires IsRun(img, cs, es) && n < |es|
    ensures Sound(img, cs[n + 1])
    decreases n
  {
    assert FollowsAt(img, cs, es, n + 1);
    if n == 0 { assert FollowsAt(img, cs, es, 0); } else { RunKeepsOn(img, cs, es, n - 1); }
    StepKeeps(img, cs[n].s, cs[n].k, es[n]);
  }

  lemma LongerRun(img: Image, cs: seq<Config>, es: seq<Event>, e: Event) returns (d: Config)
    requires IsRun(img, cs, es) && Admissible(e)
    ensures IsRun(img, cs + [d], es + [e])
  {
    RunKeeps(img, cs, es, |es|);
    var (s, k) := (cs[|es|].s, cs[|es|].k);
    var (n, out) := Step(img, s, e);
    d := Config(n, StacksAfter(s, k, e, out), out);
    forall i: nat | i < |cs + [d]| ensures FollowsAt(img, cs + [d], es + [e], i) {
      if i < |cs| { assert FollowsAt(img, cs, es, i); }
    }
  }

  /** Every admissible event sequence has a run, from every sound configuration. */
  lemma {:induction false} RunExists(img: Image, c: Config, es: seq<Event>)
    requires Sound(img, c) && forall i | 0 <= i < |es| :: Admissible(es[i])
    ensures exists cs :: IsRun(img, cs, es) && cs[0] == c
    decreases |es|
  {
    if es == [] {
      assert IsRun(img, [c], es);
    } else {
      var m := |es| - 1;
      RunExists(img, c, es[..m]);
      var before :| IsRun(img, before, es[..m]) && before[0] == c;
      var d := LongerRun(img, before, es[..m], es[m]);
      assert es == es[..m] + [es[m]];
      assert IsRun(img, before + [d], es) && (before + [d])[0] == c;
    }
  }

  // ----- a suspended parent

  ghost predicate Live(s: State, p: int) {
    |s.active| == |s.pcbs| == PIDS && 0 <= p < PIDS && s.active[p] == 1
  }

  ghost predicate Halts(cs: seq<Config>, es: seq<Event>, i: int, p: int) {
    0 <= i < |es| && i < |cs| && es[i].Halt? && cs[i].s.current == p
  }

  /** p does not halt between steps i and j. */
  ghost predicate NeverHalts(cs: seq<Config>, es: seq<Event>, p: int, i: int, j: int) {
    forall n | i <= n < j :: !Halts(cs, es, n, p)
  }

  /** p is still below its child c, with the frame, arguments and memory it had. */
  ghost predicate Waits(was: State, now: State, p: int, c: int) {
    && Live(was, p) && Live(now, p) && Live(now, c) && now.pcbs[c].parent == p
    && now.pcbs[p].context == was.pcbs[p].context && now.pcbs[p].args == was.pcbs[p].args
    && SameMemory(was.memory, now.memory, p)
  }

  lemma WaitsTwice(a: State, b: State, c: State, p: int, child: int)
    requires Waits(a, b, p, child) && Waits(b, c, p, child)
    ensures Waits(a, c, p, child)
  {
  }

  /** While a child has not halted, its parent stays live beneath it with the frame it saved. */
  lemma {:induction false} ParentWaits(img: Image, cs: seq<Config>, es: seq<Event>, c: int, i: nat, j: nat)
    requires IsRun(img, cs, es) && i <= j <= |es| && Live(cs[i].s, c) && cs[i].s.pcbs[c].parent != -1
    requires NeverHalts(cs, es, c, i, j)
    ensures Waits(cs[i].s, cs[j].s, cs[i].s.pcbs[c].parent, c)
    decreases j
  {
    RunKeeps(img, cs, es, i);
    if i == j {
      ParentIsBelow(img, cs[i].s, cs[i].k, c);
    } else {
      ParentWaits(img, cs, es, c, i, j - 1);
      RunKeeps(img, cs, es, j - 1);
      assert !Halts(cs, es, j - 1, c);
      var s, k, e := cs[j - 1].s, cs[j - 1].k, es[j - 1];
      ParentIsBelow(img, s, k, c);
      StepLeaves(img, s, k, e, s.pcbs[c].parent);
      if c == s.current { RunningSurvives(img, s, k, e); } else { StepLeaves(img, s, k, e, c); }
      WaitsTwice(cs[i].s, cs[j - 1].s, cs[j].s, cs[i].s.pcbs[c].parent, c);
    }
  }

  /**
   * The whole life of a child: whatever happens between an execute and the halt of the process it
   * started, that halt delivers its status to the frame which the parent's own execute saved.
   */
  lemma HaltReturnsToExecute(img: Image, cs: seq<Config>, es: seq<Event>, i: nat, j: nat)
    requires IsRun(img, cs, es) && i < j < |es| && es[i].Execute? && cs[i + 1].out.Started?
    requires es[j].Halt? && cs[j].s.current == cs[i + 1].s.current && NeverHalts(cs, es, cs[j].s.current, i + 1, j)
    ensures cs[j + 1].out == Resumed(cs[i].s.current, es[i].frame, es[j].status)
  {
    RunKeeps(img, cs, es, i);
    ExecuteLinks(img, cs[i].s, cs[i].k, es[i].command, es[i].frame);
    ParentWaits(img, cs, es, cs[i + 1].s.current, i + 1, j);
    RunKeeps(img, cs, es, j);
    HaltResumesParent(img, cs[j].s, cs[j].k, es[j].status);
  }

  // ----- preemption

  /** p is live, and this frame is saved for it. */
  ghost predicate Saved(s: State, p: int, frame: Context) {
    Live(s, p) && s.pcbs[p].context == frame
  }

  ghost predicate AwayAt(cs: seq<Config>, p: int, n: int) {
    0 <= n < |cs| && cs[n].s.current != p
  }

  /** While p does not run, the frame saved for it stays what it is. */
  lemma {:induction false} FrameKept(img: Image, cs: seq<Config>, es: seq<Event>, p: int, frame: Context, i: nat, j: nat)
    requires IsRun(img, cs, es) && i <= j <= |es| && Saved(cs[i].s, p, frame) && forall n | i <= n < j :: AwayAt(cs, p, n)
    ensures Saved(cs[j].s, p, frame)
    decreases j
  {
    if i < j {
      FrameKept(img, cs, es, p, frame, i, j - 1);
      RunKeeps(img, cs, es, j - 1);
      assert AwayAt(cs, p, j - 1);
      StepLeaves(img, cs[j - 1].s, cs[j - 1].k, es[j - 1], p);
    }
  }

  lemma SavedAtStep(img: Image, cs: seq<Config>, es: seq<Event>, i: nat)
    requires IsRun(img, cs, es) && i < |es| && (es[i].Tick? || es[i].Display? || es[i].Execute?)
    requires cs[i + 1].s.current != cs[i].s.current
    ensures Saved(cs[i + 1].s, cs[i].s.current, es[i].frame)
  {
    RunKeeps(img, cs, es, i);
    PreemptionSaves(img, cs[i].s, cs[i].k, es[i]);
    RunningSurvives(img, cs[i].s, cs[i].k, es[i]);
  }

  /**
   * A process that loses the processor to an interrupt or by an execute at step i, and has it again after
   * step j, finds the frame it was interrupted in, whatever ran in between.
   */
  lemma ResumesWhereInterrupted(img: Image, cs: seq<Config>, es: seq<Event>, i: nat, j: nat)
    requires IsRun(img, cs, es) && i < j < |es| && (es[i].Tick? || es[i].Display? || es[i].Execute?)
    requires (forall n | i < n <= j :: AwayAt(cs, cs[i].s.current, n)) && cs[j + 1].s.current == cs[i].s.current
    ensures Saved(cs[j + 1].s, cs[i].s.current, es[i].frame)
  {
    var p := cs[i].s.current;
    assert AwayAt(cs, p, i + 1);
    SavedAtStep(img, cs, es, i);
    FrameKept(img, cs, es, p, es[i].frame, i + 1, j + 1);
  }

  // ----- arguments

  /** p has the arguments, the terminal and the parent it had. */
  ghost predicate SameIdentity(was: State, now: State, p: int) {
    && Live(was, p) && Live(now, p) && now.pcbs[p].args == was.pcbs[p].args
    && now.pcbs[p].terminal == was.pcbs[p].terminal && now.pcbs[p].parent == was.pcbs[p].parent
  }

  /** A process keeps its arguments, its terminal and its parent until it halts. */
  lemma {:induction false} IdentityKept(img: Image, cs: seq<Config>, es: seq<Event>, p: int, i: nat, j: nat)
    requires IsRun(img, cs, es) && i <= j <= |es| && Live(cs[i].s, p) && NeverHalts(cs, es, p, i, j)
    ensures SameIdentity(cs[i].s, cs[j].s, p)
    decreases j
  {
    if i < j {
      IdentityKept(img, cs, es, p, i, j - 1);
      RunKeeps(img, cs, es, j - 1);
      assert !Halts(cs, es, j - 1, p);
      var s, k, e := cs[j - 1].s, cs[j - 1].k, es[j - 1];
      if p == s.current { RunningSurvives(img, s, k, e); } else { StepLeaves(img, s, k, e, p); }
    }
  }

  /** What a program finds as its arguments, at any time, is what its command has behind the name and one space. */
  lemma ArgsReachProgram(img: Image, cs: seq<Config>, es: seq<Event>, name: seq<byte>, args: seq<byte>, i: nat, j: nat)
    requires IsRun(img, cs, es) && i < j <= |es| && es[i].Execute? && cs[i + 1].out.Started?
    requires NeverHalts(cs, es, cs[i + 1].s.current, i + 1, j) && Parts(es[i].command, name, args)
    ensures Live(cs[j].s, cs[i + 1].s.current) && cs[j].s.pcbs[cs[i + 1].s.current].args == args
  {
    PartsIff(es[i].command, name, args);
    RunKeeps(img, cs, es, i);
    ExecuteLinks(img, cs[i].s, cs[i].k, es[i].command, es[i].frame);
    IdentityKept(img, cs, es, cs[i + 1].s.current, i + 1, j);
  }

  // ----- fairness

  /** How many clock ticks there are among events i to j - 1. */
  function Ticks(es: seq<Event>, i: nat, j: int): (r: nat)
    decreases j
  {
    if j <= i then 0 else Ticks(es, i, j - 1) + (if j <= |es| && es[j - 1].Tick? then 1 else 0)
  }

  ghost predicate Started(s: State, t: int) {
    0 <= t < |s.started| == TERMINALS && s.started[t]
  }

  /** The running process is terminal t's. */
  ghost predicate Runs(s: State, t: int) {
    0 <= s.current < |s.pcbs| && s.pcbs[s.current].terminal == t
  }

  ghost predicate NeverRuns(cs: seq<Config>, t: int, i: int, j: int) {
    forall n | i <= n <= j :: 0 <= n < |cs| && !Runs(cs[n].s, t)
  }

  lemma PatienceAtStep(img: Image, cs: seq<Config>, es: seq<Event>, t: int, n: nat)
    requires IsRun(img, cs, es) && n < |es| && Started(cs[n].s, t) && !Runs(cs[n].s, t) && !Runs(cs[n + 1].s, t)
    ensures Started(cs[n + 1].s, t) && Patience(cs[n + 1].s, t) + (if es[n].Tick? then 1 else 0) <= Patience(cs[n].s, t)
  {
    RunKeeps(img, cs, es, n);
    var e := es[n];
    if e.Tick? { TickApproaches(img, cs[n].s, cs[n].k, e.frame, t); } else { OthersKeepPatience(img, cs[n].s, cs[n].k, e); }
  }

  /** Every tick without a turn uses up some of the bound on the wait. */
  lemma {:induction false} PatienceRunsOut(img: Image, cs: seq<Config>, es: seq<Event>, t: int, i: nat, j: nat)
    requires IsRun(img, cs, es) && i <= j <= |es| && Started(cs[i].s, t) && NeverRuns(cs, t, i, j)
    ensures Started(cs[j].s, t) && Patience(cs[j].s, t) + Ticks(es, i, j) <= Patience(cs[i].s, t)
    decreases j
  {
    if i < j {
      PatienceRunsOut(img, cs, es, t, i, j - 1);
      assert !Runs(cs[j - 1].s, t) && !Runs(cs[j].s, t);
      PatienceAtStep(img, cs, es, t, j - 1);
    }
  }

  /** Bounded waiting: in any stretch with 24 ticks, whatever else happens, every started terminal runs. */
  lemma BoundedWaiting(img: Image, cs: seq<Config>, es: seq<Event>, t: int, i: nat, j: nat)
    requires IsRun(img, cs, es) && i <= j <= |es| && Started(cs[i].s, t) && Ticks(es, i, j) >= 24
    ensures !NeverRuns(cs, t, i, j)
  {
    if NeverRuns(cs, t, i, j) {
      RunKeeps(img, cs, es, i);
      RunKeeps(img, cs, es, j);
      PatienceRunsOut(img, cs, es, t, i, j);
    }
  }

  // ----- clock countdowns

  /** p makes no system call in step n; only interrupts arrive while it is running. */
  ghost predicate BlockedAt(cs: seq<Config>, es: seq<Event>, n: int, p: int) {
    0 <= n < |es| && n < |cs| && (cs[n].s.current == p ==> es[n].Tick? || es[n].Display?)
  }

  ghost predicate Blocked(cs: seq<Config>, es: seq<Event>, p: int, i: int, j: int) {
    forall n | i <= n < j :: BlockedAt(cs, es, n, p)
  }

  lemma RemainingNext(pos: nat, ticks: nat, more: nat)
    ensures Remaining(Remaining(pos, ticks), more) == Remaining(pos, ticks + more)
  {
  }

  lemma ClockAtStep(img: Image, cs: seq<Config>, es: seq<Event>, t: int, p: int, fd: int, pos: nat, n: nat)
    requires IsRun(img, cs, es) && n < |es| && ClockAt(cs[n].s, t, p, fd, pos) && BlockedAt(cs, es, n, p)
    ensures ClockAt(cs[n + 1].s, t, p, fd, Remaining(pos, if es[n].Tick? then 1 else 0))
  {
    RunKeeps(img, cs, es, n);
    ClockStep(img, cs[n].s, cs[n].k, es[n], t, p, fd, pos);
  }

  /** The countdown of a clock slot of a blocked process: one per tick, stopping at zero. */
  lemma {:induction false} ClockCounts(img: Image, cs: seq<Config>, es: seq<Event>, t: int, p: int, fd: int, pos: nat,
                                       i: nat, j: nat)
    requires IsRun(img, cs, es) && i <= j <= |es| && ClockAt(cs[i].s, t, p, fd, pos) && Blocked(cs, es, p, i, j)
    ensures ClockAt(cs[j].s, t, p, fd, Remaining(pos, Ticks(es, i, j)))
    decreases j
  {
    if i < j {
      ClockCounts(img, cs, es, t, p, fd, pos, i, j - 1);
      assert BlockedAt(cs, es, j - 1, p);
      ClockAtStep(img, cs, es, t, p, fd, Remaining(pos, Ticks(es, i, j - 1)), j - 1);
      RemainingNext(pos, Ticks(es, i, j - 1), if es[j - 1].Tick? then 1 else 0);
    }
  }

  /** rtc_read, started at step i, completes exactly when as many ticks have come as its period has. */
  lemma RtcReadCompletes(img: Image, cs: seq<Config>, es: seq<Event>, fd: int, i: nat, j: nat)
    requires IsRun(img, cs, es) && i < j <= |es| && es[i].Read? && es[i].fd == fd && IsClock(cs[i].s, cs[i].s.current, fd)
    requires Blocked(cs, es, cs[i].s.current, i + 1, j)
    ensures cs[i + 1].out == Waiting && IsClock(cs[j].s, cs[i].s.current, fd)
    ensures var p, ticks := cs[i].s.current, Ticks(es, i + 1, j);
      var flags := cs[i].s.pcbs[p].fds[fd].flags;
      flags > 0 && cs[j].s.pcbs[p].fds[fd].pos == Remaining(flags, ticks)
      && (cs[j].s.pcbs[p].fds[fd].pos == 0 <==> ticks >= flags)
  {
    RunKeeps(img, cs, es, i);
    var p := cs[i].s.current;
    OpenSlotIsSound(img, cs[i].s, cs[i].k, fd);
    ReadKeeps(img, cs[i].s, cs[i].k, fd, es[i].nbytes);
    ClockCounts(img, cs, es, CurrentTerminal(cs[i].s), p, fd, cs[i].s.pcbs[p].fds[fd].flags, i + 1, j);
  }

  // ----- file positions

  ghost predicate StaysOpen(cs: seq<Config>, es: seq<Event>, p: int, fd: int, i: int, j: int) {
    forall n | i <= n < j :: 0 <= n < |es| && n < |cs| && KeepsOpen(cs[n].s.current, es[n], p, fd)
  }

  /** The bytes that step n delivers to p's read of fd. */
  ghost function ChunkAt(cs: seq<Config>, es: seq<Event>, n: nat, p: int, fd: int): seq<byte> {
    if n < |es| < |cs| && IsReadOf(cs[n].s.current, es[n], p, fd) && cs[n + 1].out.Delivered? then cs[n + 1].out.bytes else []
  }

  /** The bytes that p's reads of fd deliver in steps i to j - 1, in order. */
  ghost function Chunks(cs: seq<Config>, es: seq<Event>, p: int, fd: int, i: nat, j: int): seq<byte>
    decreases j
  {
    if j <= i then [] else Chunks(cs, es, p, fd, i, j - 1) + ChunkAt(cs, es, j - 1, p, fd)
  }

  /** From `was` to `now`, p's open file descriptor has moved past exactly these bytes of the file. */
  ghost predicate Moved(img: Image, was: State, now: State, p: int, fd: int, bytes: seq<byte>) {
    && OpenAt(was, p, fd, FileTable) && OpenAt(now, p, fd, FileTable)
    && Advanced(img, was.pcbs[p].fds[fd], bytes, now.pcbs[p].fds[fd])
  }

  lemma MovedTwice(img: Image, a: State, b: State, c: State, p: int, fd: int, x: seq<byte>, y: seq<byte>)
    requires Moved(img, a, b, p, fd, x) && Moved(img, b, c, p, fd, y)
    ensures Moved(img, a, c, p, fd, x + y)
  {
    AdvancedTwice(img, a.pcbs[p].fds[fd], x, b.pcbs[p].fds[fd], y, c.pcbs[p].fds[fd]);
  }

  lemma NotMoved(img: Image, s: State, k: Stacks, p: int, fd: int)
    requires Inv(img, s, k) && OpenAt(s, p, fd, FileTable)
    ensures Moved(img, s, s, p, fd, [])
  {
    FileSlotSound(img, s, k, p, fd);
  }

  /** Step n moves p's open file descriptor past what it delivers to it. */
  ghost predicate MovesAt(img: Image, cs: seq<Config>, es: seq<Event>, p: int, fd: int, n: nat) {
    n < |es| && n + 1 < |cs| && (OpenAt(cs[n].s, p, fd, FileTable) ==>
      Moved(img, cs[n].s, cs[n + 1].s, p, fd, ChunkAt(cs, es, n, p, fd)))
  }

  lemma {:induction false} MovesAdd(img: Image, cs: seq<Config>, es: seq<Event>, p: int, fd: int, i: nat, j: nat)
    requires |es| < |cs| && i <= j <= |es| && Moved(img, cs[i].s, cs[i].s, p, fd, [])
    requires forall n: nat | i <= n < j :: MovesAt(img, cs, es, p, fd, n)
    ensures Moved(img, cs[i].s, cs[j].s, p, fd, Chunks(cs, es, p, fd, i, j))
    decreases j
  {
    if i < j {
      MovesAdd(img, cs, es, p, fd, i, j - 1);
      assert MovesAt(img, cs, es, p, fd, j - 1);
      MovedTwice(img, cs[i].s, cs[j - 1].s, cs[j].s, p, fd, Chunks(cs, es, p, fd, i, j - 1), ChunkAt(cs, es, j - 1, p, fd));
    }
  }

  /** Whatever is interleaved, the chunks that p reads through fd are consecutive pieces of the file. */
  lemma ReadsAreSequential(img: Image, cs: seq<Config>, es: seq<Event>, p: int, fd: int, i: nat, j: nat)
    requires IsRun(img, cs, es) && i <= j <= |es| && OpenAt(cs[i].s, p, fd, FileTable) && StaysOpen(cs, es, p, fd, i, j)
    ensures Moved(img, cs[i].s, cs[j].s, p, fd, Chunks(cs, es, p, fd, i, j))
  {
    RunKeeps(img, cs, es, i);
    NotMoved(img, cs[i].s, cs[i].k, p, fd);
    forall n: nat | i <= n < j ensures MovesAt(img, cs, es, p, fd, n) {
      if OpenAt(cs[n].s, p, fd, FileTable) {
        RunKeeps(img, cs, es, n);
        var s, k, e := cs[n].s, cs[n].k, es[n];
        if IsReadOf(s.current, e, p, fd) {
          FileReadAdvances(img, s, k, fd, e.nbytes);
        } else {
          SlotStays(img, s, k, e, p, fd, FileTable);
          FileSlotSound(img, s, k, p, fd);
        }
      }
    }
    MovesAdd(img, cs, es, p, fd, i, j);
  }

  /** `bytes` are a beginning of the first file of that name. */
  ghost predicate BeginsFile(img: Image, name: seq<byte>, bytes: seq<byte>) {
    |img.entries| == ENTRIES && var e := FindFrom(img.entries, name, 0);
    e != -1 && HasFile(img, img.entries[e].inode) && bytes <= Contents(img, img.entries[e].inode)
  }

  /** From open on, under any interleaving, what a process reads through the descriptor is a prefix of the named file. */
  lemma ReadsArePrefix(img: Image, cs: seq<Config>, es: seq<Event>, fd: int, i: nat, j: nat)
    requires IsRun(img, cs, es) && i < j <= |es| && es[i].Open? && cs[i + 1].out == Returned(fd) && fd != -1
    requires !IsRtcName(es[i].name) && !IsDotName(es[i].name) && StaysOpen(cs, es, cs[i].s.current, fd, i + 1, j)
    ensures BeginsFile(img, es[i].name, Chunks(cs, es, cs[i].s.current, fd, i + 1, j))
  {
    RunKeeps(img, cs, es, i);
    OpenFindsFile(img, cs[i].s, cs[i].k, es[i].name, fd);
    ReadsAreSequential(img, cs, es, cs[i].s.current, fd, i + 1, j);
  }

  // ----- directory listings

  /** The sizes and answers of p's reads of fd in steps i to j - 1; a negative size is refused and left out. */
  ghost function Answers(cs: seq<Config>, es: seq<Event>, p: int, fd: int, i: nat, j: int): seq<(nat, Output)>
    decreases j
  {
    if j <= i then []
    else Answers(cs, es, p, fd, i, j - 1) + AnswerAt(cs, es, j - 1, p, fd)
  }

  /** The answers are the directory's names in order, each cut to its caller's size, and -1 after the last. */
  ghost predicate Lists(img: Image, answers: seq<(nat, Output)>) {
    |img.entries| == ENTRIES && forall n | 0 <= n < |answers| :: answers[n].1 == EntryName(img, n, answers[n].0)
  }

  ghost predicate ListedTo(s: State, p: int, fd: int, n: nat) {
    OpenAt(s, p, fd, DirectoryTable) && s.pcbs[p].fds[fd].pos == Min(n, ENTRIES)
  }

  /** The answer of step n to p's read of fd, if it is one of a size that is not refused. */
  ghost function AnswerAt(cs: seq<Config>, es: seq<Event>, n: nat, p: int, fd: int): seq<(nat, Output)> {
    if n < |es| < |cs| && IsReadOf(cs[n].s.current, es[n], p, fd) && es[n].nbytes >= 0 then [(es[n].nbytes, cs[n + 1].out)] else []
  }

  lemma ListsMore(img: Image, answers: seq<(nat, Output)>, more: seq<(nat, Output)>)
    requires Lists(img, answers) && (more == [] || (|more| == 1 && more[0].1 == EntryName(img, |answers|, more[0].0)))
    ensures Lists(img, answers + more)
  {
  }

  /** These answers are the listing so far, and the descriptor stands behind them. */
  ghost predicate ListedSoFar(img: Image, s: State, p: int, fd: int, answers: seq<(nat, Output)>) {
    Lists(img, answers) && ListedTo(s, p, fd, |answers|)
  }

  lemma ListedAtStep(img: Image, cs: seq<Config>, es: seq<Event>, p: int, fd: int, n: nat, answers: seq<(nat, Output)>)
    requires IsRun(img, cs, es) && n < |es| && KeepsOpen(cs[n].s.current, es[n], p, fd)
    requires ListedSoFar(img, cs[n].s, p, fd, answers)
    ensures ListedSoFar(img, cs[n + 1].s, p, fd, answers + AnswerAt(cs, es, n, p, fd))
  {
    RunKeeps(img, cs, es, n);
    var s, k, e := cs[n].s, cs[n].k, es[n];
    if IsReadOf(s.current, e, p, fd) { DirectoryReadAdvances(img, s, k, fd, e.nbytes); }
    else { SlotStays(img, s, k, e, p, fd, DirectoryTable); }
    ListsMore(img, answers, AnswerAt(cs, es, n, p, fd));
  }

  /** Step n continues whatever listing has been delivered so far. */
  ghost predicate ContinuesAt(img: Image, cs: seq<Config>, es: seq<Event>, p: int, fd: int, n: nat) {
    n < |es| && n + 1 < |cs| && forall answers | ListedSoFar(img, cs[n].s, p, fd, answers) ::
      ListedSoFar(img, cs[n + 1].s, p, fd, answers + AnswerAt(cs, es, n, p, fd))
  }

  lemma {:induction false} ListingAdds(img: Image, cs: seq<Config>, es: seq<Event>, p: int, fd: int, i: nat, j: nat)
    requires |es| < |cs| && i <= j <= |es| && ListedSoFar(img, cs[i].s, p, fd, [])
    requires forall n: nat | i <= n < j :: ContinuesAt(img, cs, es, p, fd, n)
    ensures ListedSoFar(img, cs[j].s, p, fd, Answers(cs, es, p, fd, i, j))
    decreases j
  {
    if i < j {
      ListingAdds(img, cs, es, p, fd, i, j - 1);
      assert ContinuesAt(img, cs, es, p, fd, j - 1);
    }
  }

  lemma ReadsListNames(img: Image, cs: seq<Config>, es: seq<Event>, p: int, fd: int, i: nat, j: nat)
    requires IsRun(img, cs, es) && i <= j <= |es| && ListedTo(cs[i].s, p, fd, 0) && StaysOpen(cs, es, p, fd, i, j)
    ensures ListedSoFar(img, cs[j].s, p, fd, Answers(cs, es, p, fd, i, j))
  {
    RunKeeps(img, cs, es, i);
    forall n: nat | i <= n < j ensures ContinuesAt(img, cs, es, p, fd, n) {
      forall answers | ListedSoFar(img, cs[n].s, p, fd, answers)
        ensures ListedSoFar(img, cs[n + 1].s, p, fd, answers + AnswerAt(cs, es, n, p, fd))
      {
        ListedAtStep(img, cs, es, p, fd, n, answers);
      }
    }
    ListingAdds(img, cs, es, p, fd, i, j);
  }

  /** From the open of a directory on, under any interleaving, its reads deliver the 63 names in order, then -1. */
  lemma DirectoryListsNames(img: Image, cs: seq<Config>, es: seq<Event>, fd: int, i: nat, j: nat)
    requires IsRun(img, cs, es) && i < j <= |es| && es[i].Open? && cs[i + 1].out == Returned(fd) && fd != -1
    requires !IsRtcName(es[i].name) && IsDotName(es[i].name) && StaysOpen(cs, es, cs[i].s.current, fd, i + 1, j)
    ensures Lists(img, Answers(cs, es, cs[i].s.current, fd, i + 1, j))
  {
    RunKeeps(img, cs, es, i);
    OpenFindsDirectory(img, cs[i].s, cs[i].k, es[i].name, fd);
    ReadsListNames(img, cs, es, cs[i].s.current, fd, i + 1, j);
  }
}
