/** Runs of adds, removes, syncs and ticks over one blink list: every node keeps its own clock. */
module BlinkRuns {
  import opened Machine
  import opened Blinking

  /** The pool, the list threaded through it, and the screen. */
  datatype Blinks = Blinks(pool: seq<Blink>, head: int, list: seq<int>, video: seq<byte>)

  datatype Request = Tick | Add(b: Blink) | Remove(location: u16) | Sync(from: u16, to: u16)

  ghost predicate Sound(s: Blinks) {
    Linked(s.pool, s.head, s.list) && |s.video| == 2 * POOL
  }

  /** The first listed node at a location, or NULL. */
  function Found(s: Blinks, location: u16): (p: int)
    requires Sound(s)
    ensures p != NULL ==> 0 <= p < POOL && p in s.list && s.pool[p].location == location < POOL
    ensures p == NULL ==> forall q | q in s.list :: 0 <= q < POOL && s.pool[q].location != location
  {
    ListInPool(s.pool, s.head, s.list);
    var i := Position(s.pool, s.list, location, 0);
    if i < |s.list| then s.list[i] else NULL
  }

  /** mp1_ioctl_add, mp1_ioctl_remove, mp1_ioctl_sync and mp1_rtc_tasklet, with the value each returns. */
  function Step(s: Blinks, e: Request): (r: (Blinks, int))
    requires Sound(s)
    ensures |r.0.pool| == POOL
  {
    ListInPool(s.pool, s.head, s.list);
    match e
    case Tick => (s.(pool := TickedPool(s.pool, s.list), video := Poked(s.video, s.pool, s.list, 0)), 0)
    case Add(b) =>
      var p := FreeSlot(s.pool, 0);
      if b.location >= POOL || p == NULL then (s, -1)
      else (Blinks(Inserted(s.pool, s.head, p, b), p, [p] + s.list, s.video[2 * b.location := b.onChar]), 0)
    case Remove(location) =>
      var i := Position(s.pool, s.list, location, 0);
      if i == |s.list| then (s, -1)
      else (s.(pool := Unlinked(s.pool, s.list, i), head := if i == 0 then s.pool[s.list[0]].next else s.head,
               list := s.list[..i] + s.list[i + 1..]), 0)
    case Sync(from, to) =>
      var a, b := Found(s, from), Found(s, to);
      if a == NULL || b == NULL then (s, -1)
      else (s.(pool := s.pool[b := Synced(s.pool[a], s.pool[b])], video := s.video[2 * to := s.pool[b].offChar]), 0)
  }

  predicate Allowed(e: Request) {
    e.Add? ==> e.b.location != 0
  }

  lemma StepKeeps(s: Blinks, e: Request)
    requires Sound(s) && Allowed(e)
    ensures Sound(Step(s, e).0)
  {
    ListInPool(s.pool, s.head, s.list);
    match e
    case Tick => TickedKeeps(s.pool, s.head, s.list);
    case Add(b) =>
      var p := FreeSlot(s.pool, 0);
      if b.location < POOL && p != NULL { InsertKeepsIff(s.pool, s.head, s.list, p, b); }
    case Remove(location) =>
      var i := Position(s.pool, s.list, location, 0);
      if i < |s.list| { UnlinkKeeps(s.pool, s.head, s.list, i); }
    case Sync(from, to) => UpdateKeeps(s.pool, Step(s, e).0.pool, s.head, s.list);
  }

  // ----- one node through one step

  /** Equal but for the link. */
  predicate SameNode(a: Blink, b: Blink) {
    a == b.(next := a.next)
  }

  /** The step removes node p or syncs another node's clock into it. */
  predicate Disturbs(s: Blinks, e: Request, p: int)
    requires Sound(s)
  {
    match e
    case Remove(location) => Found(s, location) == p
    case Sync(from, to) => Found(s, from) != NULL && Found(s, to) == p
    case _ => false
  }

  lemma InList(s: Blinks, p: int)
    requires Sound(s) && p in s.list
    ensures 0 <= p < POOL && 0 < s.pool[p].location < POOL
  {
    var i :| 0 <= i < |s.list| && s.list[i] == p;
    assert NodeAt(s.pool, s.list, i);
  }

  lemma RemoveKeepsNode(s: Blinks, location: u16, p: int)
    requires Sound(s) && p in s.list && Found(s, location) != p
    ensures var n := Step(s, Remove(location)).0;
      |n.pool| == POOL && p in n.list && 0 <= p < POOL && SameNode(n.pool[p], s.pool[p])
  {
    InList(s, p);
    ListInPool(s.pool, s.head, s.list);
    var i := Position(s.pool, s.list, location, 0);
    if i < |s.list| {
      var k :| 0 <= k < |s.list| && s.list[k] == p;
      var now := s.list[..i] + s.list[i + 1..];
      assert now[if k < i then k else k - 1] == p;
    }
  }

  lemma StepKeepsNode(s: Blinks, e: Request, p: int)
    requires Sound(s) && p in s.list && !Disturbs(s, e, p)
    ensures var n := Step(s, e).0;
      |n.pool| == POOL && p in n.list && 0 <= p < POOL
      && SameNode(n.pool[p], if e.Tick? then Ticked(s.pool[p]) else s.pool[p])
  {
    InList(s, p);
    if e.Remove? { RemoveKeepsNode(s, e.location, p); }
  }

  /** Position i of the list is the first with this location. */
  ghost predicate FirstWith(s: Blinks, location: u16, i: nat)
    requires Sound(s)
  {
    && i < |s.list| && HasLocation(s, i, location) && forall j: nat | j < i :: !HasLocation(s, j, location)
  }

  ghost predicate HasLocation(s: Blinks, i: nat, location: u16)
    requires Sound(s)
  {
    i < |s.list| && 0 <= s.list[i] < 2000 && s.pool[s.list[i]].location == location
  }

  ghost predicate Unlisted(s: Blinks, location: u16)
    requires Sound(s)
  {
    forall i: nat :: !HasLocation(s, i, location)
  }

  lemma FoundIsFirst(s: Blinks, location: u16)
    requires Sound(s)
    ensures if Unlisted(s, location) then Found(s, location) == -1
            else exists i: nat :: FirstWith(s, location, i) && Found(s, location) == s.list[i]
  {
    ListInPool(s.pool, s.head, s.list);
    var i := Position(s.pool, s.list, location, 0);
    if i < |s.list| { assert HasLocation(s, i, location) && FirstWith(s, location, i); }
  }

  /** Requests fail for a location off the screen, a full pool, or a location that no node has. */
  ghost predicate Refused(s: Blinks, e: Request)
    requires Sound(s)
  {
    match e
    case Tick => false
    case Add(b) => b.location >= 2000 || |s.list| == 2000
    case Remove(location) => Unlisted(s, location)
    case Sync(from, to) => Unlisted(s, from) || Unlisted(s, to)
  }

  /** A request that fails answers -1 and changes nothing; every other one answers 0. */
  lemma AnswersIff(s: Blinks, e: Request)
    requires Sound(s)
    ensures Step(s, e).1 == if Refused(s, e) then -1 else 0
    ensures Refused(s, e) ==> Step(s, e).0 == s
  {
    FullIffNoSlot(s.pool, s.head, s.list);
    match e
    case Remove(location) => FoundIsFirst(s, location);
    case Sync(from, to) => FoundIsFirst(s, from); FoundIsFirst(s, to);
    case _ =>
  }

  /** Node i has left the list and its slot is free; the others are in their order and the screen is as it was. */
  ghost predicate Dropped(s: Blinks, n: Blinks, i: nat)
    requires Sound(s) && i < |s.list|
  {
    && n.list == s.list[..i] + s.list[i + 1..] && n.video == s.video && |n.pool| == 2000
    && 0 <= s.list[i] < 2000 && n.pool[s.list[i]].location == 0 && s.list[i] !in n.list
  }

  /** A remove takes the first node with the location off the list. */
  lemma RemoveDropsFirst(s: Blinks, location: u16)
    requires Sound(s) && !Unlisted(s, location)
    ensures exists i: nat :: FirstWith(s, location, i) && Dropped(s, Step(s, Remove(location)).0, i)
  {
    ListInPool(s.pool, s.head, s.list);
    FoundIsFirst(s, location);
    var i := Position(s.pool, s.list, location, 0);
    assert HasLocation(s, i, location) && FirstWith(s, location, i);
    assert Dropped(s, Step(s, Remove(location)).0, i);
  }

  lemma TickedSame(a: Blink, b: Blink)
    requires SameNode(a, b)
    ensures SameNode(Ticked(a), Ticked(b))
  {
  }

  // ----- runs

  ghost predicate StepsAt(ss: seq<Blinks>, es: seq<Request>, i: nat) {
    i < |es| && i + 1 < |ss| && Allowed(es[i]) && (Sound(ss[i]) ==> ss[i + 1] == Step(ss[i], es[i]).0)
  }

  ghost predicate IsRun(ss: seq<Blinks>, es: seq<Request>) {
    |ss| == |es| + 1 && Sound(ss[0]) && forall i: nat | i < |es| :: StepsAt(ss, es, i)
  }

  /** The list stays acyclic, free of duplicates and inside the pool in every run. */
  lemma {:induction false} RunKeeps(ss: seq<Blinks>, es: seq<Request>, n: nat)
    requires IsRun(ss, es) && n <= |es|
    ensures Sound(ss[n]) && (n < |es| ==> Allowed(es[n]) && ss[n + 1] == Step(ss[n], es[n]).0)
    decreases n
  {
    if n > 0 {
      RunKeeps(ss, es, n - 1);
      StepKeeps(ss[n - 1], es[n - 1]);
    }
    if n < |es| { assert StepsAt(ss, es, n); }
  }

  lemma LongerRun(ss: seq<Blinks>, es: seq<Request>, e: Request)
    requires IsRun(ss, es) && Sound(ss[|es|]) && Allowed(e)
    ensures IsRun(ss + [Step(ss[|es|], e).0], es + [e])
  {
    var more, todo := ss + [Step(ss[|es|], e).0], es + [e];
    forall i: nat | i < |todo| ensures StepsAt(more, todo, i) {
      if i < |es| { assert StepsAt(ss, es, i); }
    }
  }

  /** Every sequence of requests has a run, from every sound list. */
  lemma {:induction false} RunExists(s: Blinks, es: seq<Request>) returns (ss: seq<Blinks>)
    requires Sound(s) && forall i | 0 <= i < |es| :: Allowed(es[i])
    ensures IsRun(ss, es) && ss[0] == s
    decreases |es|
  {
    if es == [] { return [s]; }
    var m := |es| - 1;
    var before := RunExists(s, es[..m]);
    RunKeeps(before, es[..m], m);
    LongerRun(before, es[..m], es[m]);
    assert es == es[..m] + [es[m]];
    ss := before + [Step(before[m], es[m]).0];
  }

  /** How many ticks there are among requests i to j - 1. */
  function Ticks(es: seq<Request>, i: nat, j: int): (r: nat)
    decreases j
  {
    if j <= i then 0 else Ticks(es, i, j - 1) + (if j <= |es| && es[j - 1].Tick? then 1 else 0)
  }

  ghost predicate UndisturbedAt(ss: seq<Blinks>, es: seq<Request>, p: int, n: int) {
    0 <= n < |es| && n < |ss| && Sound(ss[n]) && !Disturbs(ss[n], es[n], p)
  }

  /** Node p is neither removed nor the target of a sync between requests i and j. */
  ghost predicate Undisturbed(ss: seq<Blinks>, es: seq<Request>, p: int, i: int, j: int) {
    forall n | i <= n < j :: UndisturbedAt(ss, es, p, n)
  }

  /** Node p is listed and is `b` after k ticks, but for its link. */
  ghost predicate TickedTo(s: Blinks, p: int, b: Blink, k: nat) {
    p in s.list && |s.pool| == POOL && 0 <= p < POOL && SameNode(s.pool[p], TickedTimes(b, k))
  }

  lemma NodeAtStep(ss: seq<Blinks>, es: seq<Request>, p: int, b: Blink, k: nat, n: nat)
    requires IsRun(ss, es) && n < |es| && UndisturbedAt(ss, es, p, n) && TickedTo(ss[n], p, b, k)
    ensures TickedTo(ss[n + 1], p, b, if es[n].Tick? then k + 1 else k)
  {
    RunKeeps(ss, es, n);
    StepKeepsNode(ss[n], es[n], p);
    TickedSame(ss[n].pool[p], TickedTimes(b, k));
  }

  /** Adds, removes and syncs of other nodes do not touch a node's clock: it counts the ticks and nothing else. */
  lemma {:induction false} NodeThroughRun(ss: seq<Blinks>, es: seq<Request>, p: int, b: Blink, i: nat, j: nat)
    requires IsRun(ss, es) && i <= j <= |es| && Undisturbed(ss, es, p, i, j) && TickedTo(ss[i], p, b, 0)
    ensures TickedTo(ss[j], p, b, Ticks(es, i, j))
    decreases j
  {
    if i < j {
      NodeThroughRun(ss, es, p, b, i, j - 1);
      assert UndisturbedAt(ss, es, p, j - 1);
      NodeAtStep(ss, es, p, b, Ticks(es, i, j - 1), j - 1);
    }
  }

  /** The node an accepted add puts at the front of the list. */
  lemma AddedFirst(s: Blinks, b: Blink)
    requires Sound(s) && b.location < POOL && FreeSlot(s.pool, 0) != NULL
    ensures var n := Step(s, Add(b)).0;
      TickedTo(n, FreeSlot(s.pool, 0), b.(status := 1, countdown := b.onLength, next := s.head), 0)
  {
    var n := Step(s, Add(b)).0;
    assert n.list[0] == FreeSlot(s.pool, 0);
  }

  /** A node's phase and countdown after k ticks; for lengths from 1 to 32768 those are the plain ones. */
  ghost predicate InPhaseWith(s: Blinks, p: int, b: Blink, k: nat) {
    && p in s.list && |s.pool| == POOL && 0 <= p < POOL
    && (var on, r := Lasts(b.onLength), k % Period(b);
        (IsOn(s.pool[p]) <==> r < on) && Lasts(s.pool[p].countdown) == if r < on then on - r else Period(b) - r)
    && (1 <= b.onLength <= 0x8000 && 1 <= b.offLength <= 0x8000 ==> HasPhase(s.pool[p], b.onLength, b.offLength, k))
  }

  /**
   * From its add until it is removed or synced, whatever else is added, removed or synced in between,
   * a node is on exactly while the number of ticks modulo (on + off) is below on, with the countdown to match.
   */
  lemma AddedNodePhase(ss: seq<Blinks>, es: seq<Request>, p: int, i: nat, j: nat)
    requires IsRun(ss, es) && i < j <= |es| && es[i].Add? && es[i].b.location < POOL
    requires p == FreeSlot(ss[i].pool, 0) != NULL && Undisturbed(ss, es, p, i + 1, j)
    ensures InPhaseWith(ss[j], p, es[i].b, Ticks(es, i + 1, j))
  {
    RunKeeps(ss, es, i);
    AddedFirst(ss[i], es[i].b);
    var k := Ticks(es, i + 1, j);
    var b := es[i].b.(status := 1, countdown := es[i].b.onLength, next := ss[i].head);
    NodeThroughRun(ss, es, p, b, i + 1, j);
    ClosedForm(b, k);
    if 1 <= b.onLength <= 0x8000 && 1 <= b.offLength <= 0x8000 { PlainClock(b, k); }
  }

  /** Both nodes are listed, with equal lengths, phase and countdown. */
  ghost predicate Together(s: Blinks, p: int, q: int) {
    p in s.list && q in s.list && |s.pool| == POOL && 0 <= p < POOL && 0 <= q < POOL && InPhase(s.pool[p], s.pool[q])
  }

  /** After a sync, source and target blink together until either is removed or the target of another sync. */
  lemma SyncedTogether(ss: seq<Blinks>, es: seq<Request>, p: int, q: int, i: nat, j: nat)
    requires IsRun(ss, es) && i < j <= |es| && es[i].Sync? && Sound(ss[i])
    requires p == Found(ss[i], es[i].from) != NULL && q == Found(ss[i], es[i].to) != NULL
    requires Undisturbed(ss, es, p, i + 1, j) && Undisturbed(ss, es, q, i + 1, j)
    ensures Together(ss[j], p, q)
  {
    RunKeeps(ss, es, i);
    RunKeeps(ss, es, i + 1);
    var a, b, k := ss[i + 1].pool[p], ss[i + 1].pool[q], Ticks(es, i + 1, j);
    NodeThroughRun(ss, es, p, a, i + 1, j);
    NodeThroughRun(ss, es, q, b, i + 1, j);
    InPhaseForever(a, b, k);
  }

  // ----- the screen

  predicate Listed(s: Blinks, p: int)
    requires |s.pool| == POOL
  {
    0 <= p < POOL && s.pool[p].location != 0
  }

  /** Every listed node's cell shows its current phase. */
  ghost predicate AllShown(s: Blinks) {
    |s.pool| == POOL && forall p | Listed(s, p) :: Showing(s.video, s.pool[p])
  }

  /** Nodes that share a cell have the same character to show. */
  ghost predicate Agree(s: Blinks) {
    |s.pool| == POOL && forall p, q | Listed(s, p) && Listed(s, q) && s.pool[p].location == s.pool[q].location ::
      ShownChar(s.pool[p]) == ShownChar(s.pool[q])
  }

  /** A sync copies an off phase, or its target's two characters are the same. */
  ghost predicate SyncDraws(s: Blinks, e: Request)
    requires Sound(s)
  {
    e.Sync? ==>
      var p, q := Found(s, e.from), Found(s, e.to);
      p == NULL || q == NULL || !IsOn(s.pool[p]) || s.pool[q].onChar == s.pool[q].offChar
  }

  lemma TickShowsNode(s: Blinks, p: int)
    requires Sound(s) && AllShown(s) && Agree(Step(s, Tick).0) && Listed(s, p)
    ensures Showing(Step(s, Tick).0.video, Ticked(s.pool[p]))
  {
    ListInPool(s.pool, s.head, s.list);
    var n, cell := Step(s, Tick).0, s.pool[p].location;
    assert p in s.list;
    var k :| 0 <= k < |s.list| && s.list[k] == p;
    assert DrawnAt(s.pool[s.list[k]], cell) || ShownChar(Ticked(s.pool[p])) == ShownChar(s.pool[p]);
    forall j | 0 <= j < |s.list| && s.pool[s.list[j]].location == cell
      ensures ShownChar(Ticked(s.pool[s.list[j]])) == ShownChar(Ticked(s.pool[p]))
    {
      assert s.list[j] in s.list;
      assert Listed(n, s.list[j]) && Listed(n, p);
    }
    assert Showing(s.video, s.pool[p]);
    PokedShows(s.video, s.pool, s.list, 0, cell, ShownChar(Ticked(s.pool[p])));
  }

  lemma TickShown(s: Blinks)
    requires Sound(s) && AllShown(s) && Agree(Step(s, Tick).0)
    ensures AllShown(Step(s, Tick).0)
  {
    var n := Step(s, Tick).0;
    forall p | Listed(n, p) ensures Showing(n.video, n.pool[p]) {
      assert Listed(s, p) && p in s.list;
      TickShowsNode(s, p);
    }
  }

  lemma AddShown(s: Blinks, b: Blink)
    requires Sound(s) && AllShown(s) && Allowed(Add(b)) && Agree(Step(s, Add(b)).0)
    ensures AllShown(Step(s, Add(b)).0)
  {
    var n, p := Step(s, Add(b)).0, FreeSlot(s.pool, 0);
    if b.location < POOL && p != NULL {
      forall q | Listed(n, q) ensures Showing(n.video, n.pool[q]) {
        assert Listed(n, p);
        if q != p { assert Listed(s, q); }
      }
    }
  }

  lemma RemoveShown(s: Blinks, location: u16)
    requires Sound(s) && AllShown(s)
    ensures AllShown(Step(s, Remove(location)).0)
  {
    ListInPool(s.pool, s.head, s.list);
    var n := Step(s, Remove(location)).0;
    forall p | Listed(n, p) ensures Listed(s, p) && SameNode(n.pool[p], s.pool[p]) {}
  }

  lemma SyncShownIff(s: Blinks, from: u16, to: u16)
    requires Sound(s) && AllShown(s) && Agree(Step(s, Sync(from, to)).0)
    ensures AllShown(Step(s, Sync(from, to)).0) <==> SyncDraws(s, Sync(from, to))
  {
    var n, p, q := Step(s, Sync(from, to)).0, Found(s, from), Found(s, to);
    if p != NULL && q != NULL {
      InList(s, q);
      SyncDrawsPhaseIff(s.video, s.pool[p], s.pool[q]);
      assert Listed(n, q);
      if SyncDraws(s, Sync(from, to)) {
        forall r | Listed(n, r) ensures Showing(n.video, n.pool[r]) {
          if r != q { assert Listed(s, r) && Showing(s.video, s.pool[r]); }
        }
      }
    }
  }

  lemma ShownAgree(s: Blinks)
    requires AllShown(s)
    ensures Agree(s)
  {
    forall p, q | Listed(s, p) && Listed(s, q) && s.pool[p].location == s.pool[q].location
      ensures ShownChar(s.pool[p]) == ShownChar(s.pool[q])
    {
      assert Showing(s.video, s.pool[p]) && Showing(s.video, s.pool[q]);
    }
  }

  /** A step leaves every phase on screen exactly when nodes of one cell agree afterwards and a sync draws what it copied. */
  lemma StepShownIff(s: Blinks, e: Request)
    requires Sound(s) && AllShown(s) && Allowed(e)
    ensures var n := Step(s, e).0; AllShown(n) <==> Agree(n) && SyncDraws(s, e)
  {
    var n := Step(s, e).0;
    if AllShown(n) { ShownAgree(n); }
    if Agree(n) {
      match e
      case Tick => TickShown(s);
      case Add(b) => AddShown(s, b);
      case Remove(location) => RemoveShown(s, location);
      case Sync(from, to) => SyncShownIff(s, from, to);
    }
  }

  ghost predicate SyncDrawsAt(ss: seq<Blinks>, es: seq<Request>, n: nat) {
    n < |es| && n < |ss| && Sound(ss[n]) && SyncDraws(ss[n], es[n])
  }

  lemma {:induction false} ShownTo(ss: seq<Blinks>, es: seq<Request>, n: nat)
    requires IsRun(ss, es) && n <= |es| && AllShown(ss[0])
    requires (forall i: nat | i <= n :: Agree(ss[i])) && forall i: nat | i < n :: SyncDrawsAt(ss, es, i)
    ensures AllShown(ss[n])
    decreases n
  {
    if n > 0 {
      ShownTo(ss, es, n - 1);
      RunKeeps(ss, es, n - 1);
      assert SyncDrawsAt(ss, es, n - 1);
      StepShownIff(ss[n - 1], es[n - 1]);
    }
  }

  /**
   * The screen shows every listed node's phase throughout a run exactly when, throughout, nodes that
   * share a cell agree on its character, and no sync copies an on phase to a node with two characters.
   */
  lemma ShownThroughoutIff(ss: seq<Blinks>, es: seq<Request>)
    requires IsRun(ss, es) && AllShown(ss[0])
    ensures (forall n: nat | n <= |es| :: AllShown(ss[n]))
      <==> (forall n: nat | n <= |es| :: Agree(ss[n])) && (forall n: nat | n < |es| :: SyncDrawsAt(ss, es, n))
  {
    if (forall n: nat | n <= |es| :: Agree(ss[n])) && (forall n: nat | n < |es| :: SyncDrawsAt(ss, es, n)) {
      forall n: nat | n <= |es| ensures AllShown(ss[n]) { ShownTo(ss, es, n); }
    }
    if forall n: nat | n <= |es| :: AllShown(ss[n]) {
      forall n: nat | n <= |es| ensures Agree(ss[n]) { ShownAgree(ss[n]); }
      forall n: nat | n < |es| ensures SyncDrawsAt(ss, es, n) {
        RunKeeps(ss, es, n);
        StepShownIff(ss[n], es[n]);
      }
    }
  }

  // ----- one node to a cell

  /** No two listed nodes share a cell. */
  ghost predicate Apart(s: Blinks) {
    |s.pool| == POOL && forall p, q | Listed(s, p) && Listed(s, q) && p != q :: s.pool[p].location != s.pool[q].location
  }

  /** An accepted add takes a cell of its own. */
  predicate TakesFreeCell(s: Blinks, e: Request)
    requires Sound(s)
  {
    e.Add? ==> e.b.location >= POOL || FreeSlot(s.pool, 0) == NULL || Found(s, e.b.location) == NULL
  }

  lemma ApartAgree(s: Blinks)
    requires Apart(s)
    ensures Agree(s)
  {
  }

  ghost predicate SameCell(s: Blinks, n: Blinks, p: int) {
    |s.pool| == |n.pool| == POOL && Listed(s, p) && Listed(n, p) && n.pool[p].location == s.pool[p].location
  }

  lemma TickedCells(pool: seq<Blink>, list: seq<int>, p: int)
    requires 0 <= p < |pool|
    ensures TickedPool(pool, list)[p].location == pool[p].location
  {
  }

  lemma RemoveCells(s: Blinks, location: u16, p: int)
    requires Sound(s) && Listed(Step(s, Remove(location)).0, p)
    ensures SameCell(s, Step(s, Remove(location)).0, p)
  {
    ListInPool(s.pool, s.head, s.list);
    var i := Position(s.pool, s.list, location, 0);
    if i < |s.list| { UnlinkedCells(s.pool, s.list, i, p); }
  }

  /** Where a step other than an accepted add leaves nodes, they were before. */
  lemma NoNewCells(s: Blinks, e: Request, p: int)
    requires Sound(s) && !e.Add? && Listed(Step(s, e).0, p)
    ensures SameCell(s, Step(s, e).0, p)
  {
    match e
    case Tick => TickedCells(s.pool, s.list, p);
    case Remove(location) => RemoveCells(s, location, p);
    case Sync(from, to) =>
  }

  lemma UnlinkedCells(pool: seq<Blink>, list: seq<int>, i: nat, p: int)
    requires |pool| == POOL && i < |list| && (forall j | 0 <= j < |list| :: 0 <= list[j] < POOL)
    requires 0 <= p < POOL && Unlinked(pool, list, i)[p].location != 0
    ensures Unlinked(pool, list, i)[p].location == pool[p].location
  {
  }

  lemma StillApart(s: Blinks, n: Blinks)
    requires Apart(s) && |n.pool| == POOL
    requires forall p | Listed(n, p) :: SameCell(s, n, p)
    ensures Apart(n)
  {
  }

  /** Nodes stay in cells of their own exactly when an add takes a free one. */
  lemma StepApartIff(s: Blinks, e: Request)
    requires Sound(s) && Apart(s) && Allowed(e)
    ensures Apart(Step(s, e).0) <==> TakesFreeCell(s, e)
  {
    if e.Add? {
      if e.b.location < POOL && FreeSlot(s.pool, 0) != NULL { AddApartIff(s, e.b); }
    } else {
      var n := Step(s, e).0;
      forall p | Listed(n, p) ensures SameCell(s, n, p) { NoNewCells(s, e, p); }
      StillApart(s, n);
    }
  }

  lemma AddApartIff(s: Blinks, b: Blink)
    requires Sound(s) && Apart(s) && b.location != 0 && b.location < POOL && FreeSlot(s.pool, 0) != NULL
    ensures Apart(Step(s, Add(b)).0) <==> Found(s, b.location) == NULL
  {
    var n, p, at := Step(s, Add(b)).0, FreeSlot(s.pool, 0), Found(s, b.location);
    if at == NULL {
      forall q | Listed(n, q) && q != p ensures Listed(s, q) && q in s.list && s.pool[q].location != b.location {}
      assert Apart(n);
    } else {
      InList(s, at);
      assert Listed(n, p) && Listed(n, at) && p != at;
    }
  }

  ghost predicate TakesFreeCellAt(ss: seq<Blinks>, es: seq<Request>, n: nat) {
    n < |es| && n < |ss| && Sound(ss[n]) && TakesFreeCell(ss[n], es[n])
  }

  lemma {:induction false} ApartTo(ss: seq<Blinks>, es: seq<Request>, n: nat)
    requires IsRun(ss, es) && n <= |es| && Apart(ss[0]) && forall i: nat | i < n :: TakesFreeCellAt(ss, es, i)
    ensures Apart(ss[n])
    decreases n
  {
    if n > 0 {
      ApartTo(ss, es, n - 1);
      RunKeeps(ss, es, n - 1);
      assert TakesFreeCellAt(ss, es, n - 1);
      StepApartIff(ss[n - 1], es[n - 1]);
    }
  }

  /** When every add takes a free cell, the phases are on screen throughout exactly when every sync draws what it copied. */
  lemma FreeCellsShownIff(ss: seq<Blinks>, es: seq<Request>)
    requires IsRun(ss, es) && AllShown(ss[0]) && Apart(ss[0]) && forall n: nat | n < |es| :: TakesFreeCellAt(ss, es, n)
    ensures (forall n: nat | n <= |es| :: AllShown(ss[n])) <==> (forall n: nat | n < |es| :: SyncDrawsAt(ss, es, n))
  {
    ShownThroughoutIff(ss, es);
    forall n: nat | n <= |es| ensures Agree(ss[n]) {
      ApartTo(ss, es, n);
      ApartAgree(ss[n]);
    }
  }
}
