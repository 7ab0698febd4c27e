/** Blinking characters: the linked list of fish/blink.S inside the fixed pool of fish/fish.c. */
module Blinking {
  import opened Machine

  const POOL := 2000
  const NULL := -1

  /** struct mp1_blink_struct; `next` is an index into the pool. */
  datatype Blink = Blink(location: u16, onChar: byte, offChar: byte, onLength: u16, offLength: u16,
                         countdown: u16, status: u16, next: int)

  const ZERO := Blink(0, 0, 0, 0, 0, 0, 0, NULL)

  // ----- one node's clock

  predicate IsOn(b: Blink) {
    b.status % 2 == 1
  }

  function Decremented(c: u16): u16 {
    if c == 0 then 0xFFFF else c - 1
  }

  /** The signed 16-bit comparison with zero after the decrement. */
  predicate StillCounting(c: u16) {
    0 < Decremented(c) < 0x8000
  }

  function Toggled(b: Blink): Blink {
    if IsOn(b) then b.(countdown := b.offLength, status := b.status - 1)
    else
      var s: int := b.status;
      b.(countdown := b.onLength, status := s + 1)
  }

  /** What mp1_rtc_tasklet does to one node. */
  function Ticked(b: Blink): Blink {
    if StillCounting(b.countdown) then b.(countdown := Decremented(b.countdown)) else Toggled(b)
  }

  function TickedTimes(b: Blink, k: nat): Blink {
    if k == 0 then b else Ticked(TickedTimes(b, k - 1))
  }

  /** How many ticks a stored countdown lasts: 0 and anything above 32768 act like 1. */
  function Lasts(c: u16): nat {
    if 1 <= c <= 0x8000 then c else 1
  }

  function Period(b: Blink): nat {
    Lasts(b.onLength) + Lasts(b.offLength)
  }

  ghost predicate FreshlyAdded(b: Blink) {
    b.status == 1 && b.countdown == b.onLength
  }

  lemma ModStep(k: nat, p: nat)
    requires p > 0
    ensures (k + 1) % p == if k % p + 1 == p then 0 else k % p + 1
  {
    var q, r := k / p, k % p;
    assert k == q * p + r;
    if r + 1 == p {
      assert k + 1 == (q + 1) * p + 0;
      DivUnique(k + 1, p, q + 1, 0);
    } else {
      DivUnique(k + 1, p, q, r + 1);
    }
  }

  lemma DivUnique(n: nat, p: nat, q: nat, r: nat)
    requires p > 0 && r < p && n == q * p + r
    ensures n % p == r
  {
    var q', r' := n / p, n % p;
    var d := q - q';
    assert d * p == q * p - q' * p == r' - r;
    if d >= 1 { MulAtLeast(d, p); }
    if d <= -1 {
      assert (-d) * p == -(d * p);
      MulAtLeast(-d, p);
    }
    assert d == 0;
  }

  lemma MulAtLeast(d: int, p: nat)
    requires d >= 1
    ensures d * p >= p
  {
    if d > 1 {
      MulAtLeast(d - 1, p);
      assert d * p == (d - 1) * p + p;
    }
  }

  /** Closed form: after k ticks the phase is k modulo the period, and the countdown is what is left of it. */
  lemma {:induction false} ClosedForm(b: Blink, k: nat)
    requires FreshlyAdded(b)
    ensures var n, r, on := TickedTimes(b, k), k % Period(b), Lasts(b.onLength);
      n.status == (if r < on then 1 else 0)
      && Lasts(n.countdown) == (if r < on then on - r else Period(b) - r)
      && n == b.(countdown := n.countdown, status := n.status)
  {
    if k > 0 {
      ClosedForm(b, k - 1);
      ModStep(k - 1, Period(b));
    }
  }

  /** The plain reading of the lengths: on for `onLength` ticks, off for `offLength`, and so on. */
  ghost predicate PlainPhase(b: Blink) {
    b.onLength + b.offLength > 0 &&
    forall k: nat :: IsOn(TickedTimes(b, k)) <==> InOnPart(k, b.onLength, b.offLength)
  }

  predicate InOnPart(k: nat, on: nat, off: nat)
    requires on + off > 0
  {
    k % (on + off) < on
  }

  /** The plain reading is right exactly for lengths from 1 to 32768. */
  lemma PlainPhaseIff(b: Blink)
    requires FreshlyAdded(b)
    ensures PlainPhase(b) <==> 1 <= b.onLength <= 0x8000 && 1 <= b.offLength <= 0x8000
  {
    var on: int, off: int := b.onLength, b.offLength;
    if 1 <= on <= 0x8000 && 1 <= off <= 0x8000 {
      forall k: nat ensures IsOn(TickedTimes(b, k)) <==> InOnPart(k, on, off) { ClosedForm(b, k); }
    } else if on + off > 0 {
      var k := if on == 0 then 0 else if on > 0x8000 then 1 else if off == 0 then on else on + 1;
      ClosedForm(b, k);
      if on > 0x8000 { DivUnique(1, on + off, 0, 1); DivUnique(1, Period(b), 0, 1); }
      else if on > 0 && off == 0 { DivUnique(on, on, 1, 0); DivUnique(on, on + 1, 0, on); }
      else if on > 0 { DivUnique(on + 1, on + 1, 1, 0); DivUnique(on + 1, on + off, 0, on + 1); }
      assert IsOn(TickedTimes(b, k)) != InOnPart(k, on, off);
    }
  }

  /** Lit and counting as k ticks after being added with its own lengths. */
  ghost predicate HasPhase(n: Blink, on: nat, off: nat, k: nat)
    requires on + off > 0
  {
    var r := k % (on + off);
    (IsOn(n) <==> r < on) && n.countdown == if r < on then on - r else on + off - r
  }

  /** With lengths from 1 to 32768 phase and countdown are those of k modulo their sum. */
  lemma {:induction false} PlainClock(b: Blink, k: nat)
    requires FreshlyAdded(b) && 1 <= b.onLength <= 0x8000 && 1 <= b.offLength <= 0x8000
    ensures TickedTimes(b, k) == b.(countdown := TickedTimes(b, k).countdown, status := TickedTimes(b, k).status)
    ensures TickedTimes(b, k).status <= 1 && HasPhase(TickedTimes(b, k), b.onLength, b.offLength, k)
  {
    var on: int, off: int := b.onLength, b.offLength;
    if k == 0 {
      DivUnique(0, on + off, 0, 0);
    } else {
      PlainClock(b, k - 1);
      ModStep(k - 1, on + off);
    }
  }

  ghost predicate InPhase(a: Blink, b: Blink) {
    a.onLength == b.onLength && a.offLength == b.offLength && a.countdown == b.countdown && a.status == b.status
  }

  /** Nodes in phase stay in phase at every later tick. */
  lemma {:induction false} InPhaseForever(a: Blink, b: Blink, k: nat)
    requires InPhase(a, b)
    ensures InPhase(TickedTimes(a, k), TickedTimes(b, k))
  {
    if k > 0 { InPhaseForever(a, b, k - 1); }
  }

  // ----- the list in the pool

  /** The pool's `next` fields spell out `list`, and exactly the slots off the list have location 0. */
  ghost predicate Linked(pool: seq<Blink>, head: int, list: seq<int>) {
    && |pool| == POOL
    && head == (if list == [] then NULL else list[0])
    && (forall i | 0 <= i < |list| :: NodeAt(pool, list, i))
    && (forall i, j | 0 <= i < j < |list| :: list[i] != list[j])
    && forall p | 0 <= p < POOL :: p in list <==> pool[p].location != 0
  }

  ghost predicate NodeAt(pool: seq<Blink>, list: seq<int>, i: int)
    requires |pool| == POOL && 0 <= i < |list|
  {
    && 0 <= list[i] < POOL && pool[list[i]].location < POOL
    && pool[list[i]].next == (if i + 1 < |list| then list[i + 1] else NULL)
  }

  lemma ListInPool(pool: seq<Blink>, head: int, list: seq<int>)
    requires Linked(pool, head, list)
    ensures forall j | 0 <= j < |list| :: 0 <= list[j] < POOL && pool[list[j]].location < POOL
  {
    forall j | 0 <= j < |list| ensures 0 <= list[j] < POOL && pool[list[j]].location < POOL { assert NodeAt(pool, list, j); }
  }

  function FreeSlot(pool: seq<Blink>, p: nat): (r: int)
    requires p <= |pool|
    ensures r == NULL ==> forall q | p <= q < |pool| :: pool[q].location != 0
    ensures r != NULL ==> p <= r < |pool| && pool[r].location == 0 && forall q | p <= q < r :: pool[q].location != 0
    decreases |pool| - p
  {
    if p == |pool| then NULL else if pool[p].location == 0 then p else FreeSlot(pool, p + 1)
  }

  /** First position of a location in the list, or its length. */
  function Position(pool: seq<Blink>, list: seq<int>, location: u16, i: nat): (r: nat)
    requires |pool| == POOL && i <= |list| && forall j | 0 <= j < |list| :: 0 <= list[j] < POOL
    ensures i <= r <= |list| && (forall j | i <= j < r :: pool[list[j]].location != location)
    ensures r < |list| ==> pool[list[r]].location == location
    decreases |list| - i
  {
    if i == |list| || pool[list[i]].location == location then i else Position(pool, list, location, i + 1)
  }

  /** mp1_ioctl_add's effect on the pool once a free slot is found. */
  function Inserted(pool: seq<Blink>, head: int, p: int, b: Blink): seq<Blink>
    requires |pool| == POOL && 0 <= p < POOL
  {
    pool[p := b.(status := 1, countdown := b.onLength, next := head)]
  }

  /** Adding keeps the list sound exactly for non-zero locations. */
  lemma InsertKeepsIff(pool: seq<Blink>, head: int, list: seq<int>, p: int, b: Blink)
    requires Linked(pool, head, list) && 0 <= p < POOL && pool[p].location == 0 && b.location < POOL
    ensures Linked(Inserted(pool, head, p, b), p, [p] + list) <==> b.location != 0
  {
    var n, l := Inserted(pool, head, p, b), [p] + list;
    if b.location == 0 {
      assert l[0] == p && p in l;
      assert n[p].location == 0;
    } else {
      forall i | 0 <= i < |l| ensures NodeAt(n, l, i) {
        if i > 0 { assert NodeAt(pool, list, i - 1); }
      }
      forall q | 0 <= q < POOL ensures q in l <==> n[q].location != 0 {
        assert q in list <==> pool[q].location != 0;
      }
    }
  }

  /** After location 0 is added, the next add takes the same slot and links it to itself: the tasklet never ends. */
  lemma ZeroLocationLoops(pool: seq<Blink>, head: int, list: seq<int>, zero: Blink, b: Blink)
    requires Linked(pool, head, list) && FreeSlot(pool, 0) != NULL && zero.location == 0
    ensures var p := FreeSlot(pool, 0);
      var once := Inserted(pool, head, p, zero);
      FreeSlot(once, 0) == p && Inserted(once, p, p, b)[p].next == p
  {
    SameFreeSlot(pool, Inserted(pool, head, FreeSlot(pool, 0), zero), 0);
  }

  lemma {:induction false} SameFreeSlot(a: seq<Blink>, b: seq<Blink>, p: nat)
    requires |a| == |b| && p <= |a| && forall q | 0 <= q < |a| :: (a[q].location == 0 <==> b[q].location == 0)
    ensures FreeSlot(a, p) == FreeSlot(b, p)
    decreases |a| - p
  {
    if p < |a| { SameFreeSlot(a, b, p + 1); }
  }

  /** Unlinking position i: its predecessor, or the head, skips it and its slot is zeroed. */
  function Unlinked(pool: seq<Blink>, list: seq<int>, i: nat): seq<Blink>
    requires |pool| == POOL && i < |list| && forall j | 0 <= j < |list| :: 0 <= list[j] < POOL
  {
    var p := list[i];
    var bridged := if i == 0 then pool else pool[list[i - 1] := pool[list[i - 1]].(next := pool[p].next)];
    bridged[p := ZERO]
  }

  lemma UnlinkKeeps(pool: seq<Blink>, head: int, list: seq<int>, i: nat)
    requires Linked(pool, head, list) && i < |list| && forall j | 0 <= j < |list| :: 0 <= list[j] < POOL
    ensures Linked(Unlinked(pool, list, i), if i == 0 then pool[list[0]].next else head, list[..i] + list[i + 1..])
  {
    var n, l := Unlinked(pool, list, i), list[..i] + list[i + 1..];
    assert NodeAt(pool, list, i);
    forall j | 0 <= j < |l| ensures NodeAt(n, l, j) {
      assert NodeAt(pool, list, if j < i then j else j + 1);
    }
    forall q | 0 <= q < POOL ensures q in l <==> n[q].location != 0 {
      assert q in list <==> pool[q].location != 0;
      if q in list {
        var j :| 0 <= j < |list| && list[j] == q;
        if j != i { assert l[if j < i then j else j - 1] == q; }
      }
    }
  }

  /** Stores that change neither links nor locations keep the list. */
  lemma UpdateKeeps(pool: seq<Blink>, now: seq<Blink>, head: int, list: seq<int>)
    requires Linked(pool, head, list) && |now| == POOL
    requires forall p | 0 <= p < POOL :: now[p].next == pool[p].next && now[p].location == pool[p].location
    ensures Linked(now, head, list)
  {
    forall i | 0 <= i < |list| ensures NodeAt(now, list, i) { assert NodeAt(pool, list, i); }
  }

  // ----- syncing and ticking

  /** mp1_ioctl_sync's copy of the source's clock into the target. */
  function Synced(source: Blink, target: Blink): Blink {
    target.(onLength := source.onLength, offLength := source.offLength,
            countdown := source.countdown, status := source.status)
  }

  function ShownChar(b: Blink): byte {
    if IsOn(b) then b.onChar else b.offChar
  }

  ghost predicate Showing(video: seq<byte>, b: Blink) {
    |video| == 2 * POOL && b.location < POOL && video[2 * b.location] == ShownChar(b)
  }

  /** The pokes of one tick, in list order: only nodes that change phase are drawn. */
  function Poked(video: seq<byte>, pool: seq<Blink>, list: seq<int>, i: nat): (r: seq<byte>)
    requires |video| == 2 * POOL && |pool| == POOL && i <= |list|
    requires forall j | 0 <= j < |list| :: 0 <= list[j] < POOL && pool[list[j]].location < POOL
    ensures |r| == |video|
    decreases |list| - i
  {
    if i == |list| then video
    else
      var b := pool[list[i]];
      Poked(if StillCounting(b.countdown) then video else video[2 * b.location := ShownChar(Ticked(b))], pool, list, i + 1)
  }

  /** A cell that no remaining node owns keeps its character. */
  lemma {:induction false} PokedElsewhere(video: seq<byte>, pool: seq<Blink>, list: seq<int>, i: nat, cell: nat)
    requires |video| == 2 * POOL && |pool| == POOL && i <= |list| && cell < POOL
    requires forall j | 0 <= j < |list| :: 0 <= list[j] < POOL && pool[list[j]].location < POOL
    requires forall j | i <= j < |list| :: pool[list[j]].location != cell
    ensures Poked(video, pool, list, i)[2 * cell] == video[2 * cell]
    decreases |list| - i
  {
    if i < |list| {
      var b := pool[list[i]];
      PokedElsewhere(if StillCounting(b.countdown) then video else video[2 * b.location := ShownChar(Ticked(b))],
                     pool, list, i + 1, cell);
    }
  }

  /** A cell whose nodes all come to show c shows c after the tick, if it did before or one of them is drawn. */
  lemma {:induction false} PokedShows(video: seq<byte>, pool: seq<Blink>, list: seq<int>, i: nat, cell: nat, c: byte)
    requires |video| == 2 * POOL && |pool| == POOL && i <= |list| && cell < POOL
    requires forall j | 0 <= j < |list| :: 0 <= list[j] < POOL && pool[list[j]].location < POOL
    requires forall j | i <= j < |list| && pool[list[j]].location == cell :: ShownChar(Ticked(pool[list[j]])) == c
    requires video[2 * cell] == c || exists j | i <= j < |list| :: DrawnAt(pool[list[j]], cell)
    ensures Poked(video, pool, list, i)[2 * cell] == c
    decreases |list| - i
  {
    if i < |list| {
      var b := pool[list[i]];
      assert DrawnAt(b, cell) <==> b.location == cell && !StillCounting(b.countdown);
      PokedShows(if StillCounting(b.countdown) then video else video[2 * b.location := ShownChar(Ticked(b))],
                 pool, list, i + 1, cell, c);
    }
  }

  /** The tick draws this node, in this cell. */
  predicate DrawnAt(b: Blink, cell: nat) {
    b.location == cell && !StillCounting(b.countdown)
  }

  /** The redraw after a sync always draws the off character, so it is right only for an off phase. */
  lemma SyncDrawsPhaseIff(video: seq<byte>, source: Blink, target: Blink)
    requires |video| == 2 * POOL && target.location < POOL
    ensures Showing(video[2 * target.location := target.offChar], Synced(source, target))
      <==> !IsOn(source) || target.onChar == target.offChar
  {
  }

  /** The pool after one tick: every listed node ticks. */
  function TickedPool(pool: seq<Blink>, list: seq<int>): (r: seq<Blink>)
    ensures |r| == |pool|
  {
    seq(|pool|, p requires 0 <= p < |pool| => if p in list then Ticked(pool[p]) else pool[p])
  }

  ghost predicate Distinct(list: seq<int>) {
    forall i, j | 0 <= i < j < |list| :: list[i] != list[j]
  }

  ghost predicate InPool(pool: seq<Blink>, list: seq<int>) {
    forall j | 0 <= j < |list| :: 0 <= list[j] < |pool|
  }

  /** The pool when the first n listed nodes have ticked. */
  ghost function TickedFirst(pool: seq<Blink>, list: seq<int>, n: nat): (r: seq<Blink>)
    requires n <= |list| && InPool(pool, list)
    ensures |r| == |pool|
  {
    if n == 0 then pool else TickedFirst(pool, list, n - 1)[list[n - 1] := Ticked(pool[list[n - 1]])]
  }

  lemma {:induction false} TickedFirstAt(pool: seq<Blink>, list: seq<int>, n: nat, q: int)
    requires n <= |list| && InPool(pool, list) && Distinct(list) && 0 <= q < |pool|
    ensures TickedFirst(pool, list, n)[q] == if q in list[..n] then Ticked(pool[q]) else pool[q]
    decreases n
  {
    if n > 0 {
      TickedFirstAt(pool, list, n - 1, q);
      assert list[..n] == list[..n - 1] + [list[n - 1]];
    }
  }

  lemma TickedFirstAll(pool: seq<Blink>, list: seq<int>)
    requires InPool(pool, list) && Distinct(list)
    ensures TickedFirst(pool, list, |list|) == TickedPool(pool, list)
  {
    assert list[..|list|] == list;
    forall q | 0 <= q < |pool| ensures TickedFirst(pool, list, |list|)[q] == TickedPool(pool, list)[q] {
      TickedFirstAt(pool, list, |list|, q);
    }
  }

  /** Ticking moves no pointer and no location. */
  lemma TickedKeeps(pool: seq<Blink>, head: int, list: seq<int>)
    requires Linked(pool, head, list)
    ensures Linked(TickedPool(pool, list), head, list)
  {
    UpdateKeeps(pool, TickedPool(pool, list), head, list);
  }

  /** The next listed node has not ticked yet. */
  lemma NextUnticked(pool: seq<Blink>, list: seq<int>, n: nat)
    requires n < |list| && InPool(pool, list) && Distinct(list)
    ensures TickedFirst(pool, list, n)[list[n]] == pool[list[n]]
  {
    TickedFirstAt(pool, list, n, list[n]);
  }

  /** A list with 2000 nodes fills the pool, and only such a list does. */
  lemma FullIffNoSlot(pool: seq<Blink>, head: int, list: seq<int>)
    requires Linked(pool, head, list)
    ensures FreeSlot(pool, 0) == NULL <==> |list| == POOL
  {
    ListInPool(pool, head, list);
    FullIffCovered(pool, list, POOL);
  }

  lemma FullIffCovered(pool: seq<Blink>, list: seq<int>, n: nat)
    requires |pool| == n && (forall j | 0 <= j < |list| :: 0 <= list[j] < n)
    requires forall i, j | 0 <= i < j < |list| :: list[i] != list[j]
    requires forall p | 0 <= p < n :: p in list <==> pool[p].location != 0
    ensures FreeSlot(pool, 0) == NULL <==> |list| == n
  {
    var used := set p | p in list;
    UsedCount(list);
    if FreeSlot(pool, 0) == NULL {
      assert forall p | p in Slots(n) :: p in list;
      assert used == Slots(n);
    }
    if |list| == n {
      SubsetSize(used, Slots(n));
      assert forall p | p in Slots(n) :: p in list;
    }
  }

  ghost function Slots(n: nat): (r: set<int>)
    ensures |r| == n && forall p :: p in r <==> 0 <= p < n
  {
    if n == 0 then {} else Slots(n - 1) + {n - 1}
  }

  lemma {:induction false} UsedCount(list: seq<int>)
    requires forall i, j | 0 <= i < j < |list| :: list[i] != list[j]
    ensures |set p | p in list| == |list|
  {
    if list != [] {
      var rest := list[1..];
      UsedCount(rest);
      assert list == [list[0]] + rest;
      assert (set p | p in list) == (set p | p in rest) + {list[0]};
    }
  }

  lemma SubsetSize(a: set<int>, b: set<int>)
    requires a <= b && |a| == |b|
    ensures a == b
  {
    assert |b - a| == |b| - |a|;
  }
}
