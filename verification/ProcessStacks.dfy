/** The invariant: one stack of pids per terminal, and every cached pointer is the running process's. */
module ProcessStacks {
  import opened FileSystem
  import opened Processes

  /** One stack of pids per terminal, bottom first. */
  type Stacks = seq<seq<int>>

  function TopOf(stack: seq<int>): int {
    if stack == [] then -1 else stack[|stack| - 1]
  }

  ghost predicate LiveAt(s: State, t: int, stack: seq<int>, i: int)
    requires |s.active| == |s.pcbs| == PIDS && 0 <= i < |stack|
  {
    var p := stack[i];
    0 <= p < PIDS && s.active[p] == 1 && s.pcbs[p].pid == p && s.pcbs[p].terminal == t
    && s.pcbs[p].parent == (if i == 0 then -1 else stack[i - 1])
  }

  ghost predicate StackLinked(s: State, t: int, stack: seq<int>)
    requires |s.active| == |s.pcbs| == PIDS
  {
    && (forall i | 0 <= i < |stack| :: LiveAt(s, t, stack, i))
    && forall i, j | 0 <= i < j < |stack| :: stack[i] != stack[j]
  }

  /** A pid is free, or live and in the stack of its own terminal. */
  ghost predicate Placed(s: State, k: Stacks, p: int)
    requires |s.active| == |s.pcbs| == PIDS && |k| == TERMINALS && 0 <= p < PIDS
  {
    s.active[p] == -1 || (s.active[p] == 1 && 0 <= s.pcbs[p].terminal < TERMINALS && p in k[s.pcbs[p].terminal])
  }

  ghost predicate Linked(s: State, k: Stacks) {
    && |s.active| == |s.pcbs| == PIDS && |k| == TERMINALS
    && (forall t | 0 <= t < TERMINALS :: StackLinked(s, t, k[t]))
    && forall p | 0 <= p < PIDS :: Placed(s, k, p)
  }

  ghost predicate Topped(s: State, k: Stacks) {
    && |s.tops| == |s.started| == |k| == TERMINALS
    && forall t | 0 <= t < TERMINALS :: s.tops[t] == TopOf(k[t]) && (s.started[t] <==> k[t] != [])
  }

  /** The running process is the top of its terminal, and every cached pointer is its own. */
  ghost predicate Home(s: State) {
    && 0 <= s.current < |s.pcbs| && 0 <= s.pcbs[s.current].terminal < |s.tops|
    && s.tops[s.pcbs[s.current].terminal] == s.current
    && s.owner == s.current && s.page == 2 + s.current && s.current < PIDS && s.esp0 == KernelStack(s.current)
  }

  // ----- descriptor tables

  ghost predicate ClockSound(fd: Fd) {
    fd.inode == 0 && fd.pos <= fd.flags && fd.flags in {1, 2, 4, 8, 16, 32, 64, 128, 256, 512}
  }

  /** A slot above 1: only an open slot carries the clock's table, and an open slot carries a usable one. */
  ghost predicate SlotSound(img: Image, fd: Fd, live: bool) {
    && (fd.table == RtcTable ==> live && ClockSound(fd))
    && (live && fd.inode != UNUSED ==> fd.table in {RtcTable, FileTable, DirectoryTable})
    && (fd.table == FileTable && fd.inode != UNUSED ==>
          HasFile(img, fd.inode) && fd.pos <= |Contents(img, fd.inode)| && live)
  }

  ghost predicate FdsSound(img: Image, fds: seq<Fd>, live: bool) {
    && |fds| == SLOTS
    && (forall i | 0 <= i < 2 :: fds[i].table == (if live then TerminalTable else fds[i].table)
                                 && fds[i].table !in {RtcTable, FileTable, DirectoryTable}
                                 && (live ==> fds[i].inode == PLACEHOLDER))
    && forall i | 2 <= i < SLOTS :: SlotSound(img, fds[i], live)
  }

  ghost predicate Described(img: Image, s: State) {
    && |s.active| == |s.pcbs| == PIDS
    && forall p | 0 <= p < PIDS :: FdsSound(img, s.pcbs[p].fds, s.active[p] == 1)
  }

  // ----- the invariant

  ghost predicate Inv(img: Image, s: State, k: Stacks) {
    Usable(img, s) && Linked(s, k) && Topped(s, k) && Home(s) && Described(img, s)
  }

  lemma TopIsPid(s: State, t: int, stack: seq<int>)
    requires |s.active| == |s.pcbs| == PIDS && StackLinked(s, t, stack)
    ensures stack != [] ==> 0 <= TopOf(stack) < PIDS && LiveAt(s, t, stack, |stack| - 1)
  {
    if stack != [] { assert LiveAt(s, t, stack, |stack| - 1); }
  }

  lemma BottomLinked(s: State, t: int, stack: seq<int>)
    requires |s.active| == |s.pcbs| == PIDS && StackLinked(s, t, stack) && stack != []
    ensures StackLinked(s, t, stack[..|stack| - 1])
    ensures 0 <= TopOf(stack) < PIDS && s.pcbs[TopOf(stack)].parent == TopOf(stack[..|stack| - 1])
  {
    var rest := stack[..|stack| - 1];
    TopIsPid(s, t, stack);
    forall i | 0 <= i < |rest| ensures LiveAt(s, t, rest, i) { assert LiveAt(s, t, stack, i); }
  }

  /** The stacks are determined by the kernel's own arrays. */
  lemma {:induction false} StackUnique(s: State, t: int, a: seq<int>, b: seq<int>)
    requires |s.active| == |s.pcbs| == PIDS && StackLinked(s, t, a) && StackLinked(s, t, b) && TopOf(a) == TopOf(b)
    ensures a == b
    decreases |a|
  {
    TopIsPid(s, t, a);
    TopIsPid(s, t, b);
    if a != [] && b != [] {
      BottomLinked(s, t, a);
      BottomLinked(s, t, b);
      StackUnique(s, t, a[..|a| - 1], b[..|b| - 1]);
      assert a == a[..|a| - 1] + [TopOf(a)] && b == b[..|b| - 1] + [TopOf(b)];
    }
  }

  lemma StacksUnique(img: Image, s: State, a: Stacks, b: Stacks)
    requires Inv(img, s, a) && Inv(img, s, b)
    ensures a == b
  {
    forall t | 0 <= t < TERMINALS ensures a[t] == b[t] {
      StackUnique(s, t, a[t], b[t]);
    }
  }

  /** No pid is in two stacks, or twice in one. */
  lemma Disjoint(s: State, k: Stacks, t: int, i: int, t': int, i': int)
    requires Linked(s, k) && 0 <= t < TERMINALS && 0 <= t' < TERMINALS
    requires 0 <= i < |k[t]| && 0 <= i' < |k[t']| && k[t][i] == k[t'][i']
    ensures t == t' && i == i'
  {
    assert LiveAt(s, t, k[t], i) && LiveAt(s, t', k[t'], i');
  }

  // ----- frame lemmas: what the clauses depend on

  /** Same liveness and same links. */
  ghost predicate SameLinks(s: State, n: State) {
    && s.active == n.active && |s.pcbs| == |n.pcbs|
    && forall p | 0 <= p < |s.pcbs| ::
         n.pcbs[p].pid == s.pcbs[p].pid && n.pcbs[p].terminal == s.pcbs[p].terminal && n.pcbs[p].parent == s.pcbs[p].parent
  }

  lemma LinksKeepStacks(s: State, n: State, k: Stacks)
    requires Linked(s, k) && SameLinks(s, n)
    ensures Linked(n, k)
  {
    forall t | 0 <= t < TERMINALS ensures StackLinked(n, t, k[t]) {
      forall i | 0 <= i < |k[t]| ensures LiveAt(n, t, k[t], i) { assert LiveAt(s, t, k[t], i); }
    }
    forall p | 0 <= p < PIDS ensures Placed(n, k, p) { assert Placed(s, k, p); }
  }

  /** A live process that is not the running one is at the top of another terminal or has a child. */
  lemma CurrentIsTop(img: Image, s: State, k: Stacks)
    requires Inv(img, s, k)
    ensures var t := s.pcbs[s.current].terminal;
      k[t] != [] && s.current == k[t][|k[t]| - 1] && s.active[s.current] == 1 && s.pcbs[s.current].pid == s.current
      && s.pcbs[s.current].parent == (if |k[t]| == 1 then -1 else k[t][|k[t]| - 2])
  {
    var t := s.pcbs[s.current].terminal;
    assert LiveAt(s, t, k[t], |k[t]| - 1);
  }

  // ----- pushing a new process

  lemma PushLinked(s: State, n: State, k: Stacks, t: int, pid: int)
    requires Linked(s, k) && 0 <= t < TERMINALS && 0 <= pid < PIDS && s.active[pid] == -1
    requires n.active == s.active[pid := 1] && |n.pcbs| == PIDS
    requires n.pcbs[pid].pid == pid && n.pcbs[pid].terminal == t && n.pcbs[pid].parent == TopOf(k[t])
    requires forall p | 0 <= p < PIDS && p != pid ::
      n.pcbs[p].pid == s.pcbs[p].pid && n.pcbs[p].terminal == s.pcbs[p].terminal && n.pcbs[p].parent == s.pcbs[p].parent
    ensures Linked(n, k[t := k[t] + [pid]])
  {
    var k' := k[t := k[t] + [pid]];
    forall u | 0 <= u < TERMINALS ensures StackLinked(n, u, k'[u]) {
      forall i | 0 <= i < |k'[u]| ensures LiveAt(n, u, k'[u], i) {
        if i < |k[u]| { assert LiveAt(s, u, k[u], i); }
      }
      forall i, j | 0 <= i < j < |k'[u]| ensures k'[u][i] != k'[u][j] {
        assert LiveAt(s, u, k[u], i);
      }
    }
    forall p | 0 <= p < PIDS ensures Placed(n, k', p) {
      assert Placed(s, k, p);
      if p == pid { assert k'[t][|k[t]|] == pid; }
    }
  }

  /** Removing the top of terminal t. */
  lemma PopLinked(s: State, n: State, k: Stacks, t: int)
    requires Linked(s, k) && 0 <= t < TERMINALS && k[t] != []
    requires LiveAt(s, t, k[t], |k[t]| - 1) && n.active == s.active[TopOf(k[t]) := -1] && |n.pcbs| == PIDS
    requires forall p | 0 <= p < PIDS ::
      n.pcbs[p].pid == s.pcbs[p].pid && n.pcbs[p].terminal == s.pcbs[p].terminal && n.pcbs[p].parent == s.pcbs[p].parent
    ensures Linked(n, k[t := k[t][..|k[t]| - 1]])
  {
    var k' := k[t := k[t][..|k[t]| - 1]];
    forall u | 0 <= u < TERMINALS ensures StackLinked(n, u, k'[u]) {
      forall i | 0 <= i < |k'[u]| ensures LiveAt(n, u, k'[u], i) {
        assert LiveAt(s, u, k[u], i);
      }
    }
    forall p | 0 <= p < PIDS ensures Placed(n, k', p) {
      assert Placed(s, k, p);
      if s.active[p] == 1 && p != TopOf(k[t]) {
        var i :| 0 <= i < |k[s.pcbs[p].terminal]| && k[s.pcbs[p].terminal][i] == p;
        assert k'[s.pcbs[p].terminal][i] == p;
      }
    }
  }
}
