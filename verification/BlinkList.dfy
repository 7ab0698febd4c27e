/**
 * The blink list as fish/blink.S keeps it: an array of nodes, a head pointer and the screen, updated in
 * place. The walks over the list are loops over `next` fields, and the ghost `list` is the sequence of
 * slots they visit; every method is proved equal to its step, with the value it returns.
 */
module BlinkMachine {
  import opened Machine
  import opened Blinking
  import opened BlinkRuns

  class BlinkList {
    const pool: array<Blink>
    const video: array<byte>
    var head: int
    ghost var list: seq<int>

    ghost function State(): Blinks
      reads this, pool, video
    {
      Blinks(pool[..], head, list, video[..])
    }

    ghost predicate Valid()
      reads this, pool, video
    {
      pool.Length == POOL && video.Length == 2 * POOL && Sound(State())
    }

    constructor ()
      ensures Valid() && list == [] && fresh(pool) && fresh(video)
    {
      pool := new Blink[POOL](_ => ZERO);
      video := new byte[2 * POOL](_ => 0);
      head := NULL;
      list := [];
    }

    /** mp1_poke. */
    method Poke(location: u16, c: byte)
      requires video.Length == 2 * POOL && location < POOL
      modifies video
      ensures video[..] == old(video[..])[2 * location := c]
    {
      video[2 * location] := c;
    }

    /** mp1_malloc: the first slot whose location is 0. */
    method Malloc() returns (p: int)
      requires Valid()
      ensures p == FreeSlot(pool[..], 0)
    {
      p := 0;
      while p < 2000
        invariant 0 <= p <= 2000 && FreeSlot(pool[..], 0) == FreeSlot(pool[..], p)
      {
        if pool[p].location == 0 { return; }
        p := p + 1;
      }
      p := NULL;
    }

    /** mp1_ioctl_add: the list stays sound exactly when nothing is added at location 0. */
    method Add(b: Blink) returns (r: int)
      requires Valid()
      modifies this, pool, video
      ensures (State(), r) == Step(old(State()), BlinkRuns.Add(b))
      ensures r == if b.location >= POOL || |old(list)| == POOL then -1 else 0
      ensures Valid() <==> r == -1 || b.location != 0
    {
      FullIffNoSlot(pool[..], head, list);
      if b.location >= 2000 { return -1; }
      var p := Malloc();
      if p == NULL { return -1; }
      InsertKeepsIff(pool[..], head, list, p, b);
      pool[p] := b.(status := 1, countdown := b.onLength, next := head);
      head := p;
      list := [p] + list;
      Poke(b.location, b.onChar);
      return 0;
    }

    /** mp1_find_helper. */
    method FindHelper(location: u16) returns (p: int)
      requires Valid()
      ensures p == Found(State(), location)
    {
      ListInPool(pool[..], head, list);
      p := head;
      ghost var i := 0;
      while p != NULL
        invariant 0 <= i <= |list| && (p == NULL || 0 <= p < POOL) && p == if i < |list| then list[i] else NULL
        invariant Position(pool[..], list, location, 0) == Position(pool[..], list, location, i)
        decreases |list| - i
      {
        assert NodeAt(pool[..], list, i);
        if pool[p].location == location { return; }
        p := pool[p].next;
        i := i + 1;
      }
    }

    /** mp1_ioctl_remove: deletes the first match and keeps the order of the rest. */
    method Remove(location: u16) returns (r: int)
      requires Valid()
      modifies this, pool
      ensures (State(), r) == Step(old(State()), BlinkRuns.Remove(location)) && Valid()
    {
      ListInPool(pool[..], head, list);
      StepKeeps(State(), BlinkRuns.Remove(location));
      var p := FindHelper(location);
      if p == NULL { return -1; }
      ghost var i := Position(pool[..], list, location, 0);
      var prev := FindPrev(p, i);
      if prev == NULL { head := pool[p].next; } else { pool[prev] := pool[prev].(next := pool[p].next); }
      pool[p] := ZERO;
      list := list[..i] + list[i + 1..];
      return 0;
    }

    /** mp1_ioctl_sync: `from` is the upper half of the argument, `to` the lower. */
    method Sync(from: u16, to: u16) returns (r: int)
      requires Valid()
      modifies pool, video
      ensures (State(), r) == Step(old(State()), BlinkRuns.Sync(from, to)) && Valid()
    {
      StepKeeps(State(), BlinkRuns.Sync(from, to));
      var source := FindHelper(from);
      if source == NULL { return -1; }
      var target := FindHelper(to);
      if target == NULL { return -1; }
      pool[target] := pool[target].(onLength := pool[source].onLength, offLength := pool[source].offLength,
                                    countdown := pool[source].countdown, status := pool[source].status);
      Poke(pool[target].location, pool[target].offChar);
      return 0;
    }

    /** mp1_rtc_tasklet: every listed node ticks once; the list is not changed. */
    method Tasklet()
      requires Valid()
      modifies pool, video
      ensures State() == Step(old(State()), Tick).0 && Valid()
    {
      StepKeeps(State(), Tick);
      ListInPool(pool[..], head, list);
      TickAll();
    }

    /** The walk over the list. */
    method TickAll()
      requires pool.Length == POOL && video.Length == 2 * POOL && InPool(pool[..], list) && Distinct(list)
      requires head == (if list == [] then NULL else list[0]) && forall i | 0 <= i < |list| :: NodeAt(pool[..], list, i)
      requires forall j | 0 <= j < |list| :: pool[list[j]].location < POOL
      modifies pool, video
      ensures pool[..] == TickedPool(old(pool[..]), list) && video[..] == Poked(old(video[..]), old(pool[..]), list, 0)
    {
      ghost var was := pool[..];
      var p := head;
      ghost var i := 0;
      while p != NULL
        invariant 0 <= i <= |list| && p == (if i < |list| then list[i] else NULL)
        invariant pool[..] == TickedFirst(was, list, i)
        invariant Poked(old(video[..]), was, list, 0) == Poked(video[..], was, list, i)
        decreases |list| - i
      {
        assert NodeAt(was, list, i);
        p := TickNext(p, was, i);
        i := i + 1;
      }
      TickedFirstAll(was, list);
    }

    /** One round: node i of the list ticks, and its link leads on. */
    method TickNext(p: int, ghost was: seq<Blink>, ghost i: nat) returns (next: int)
      requires pool.Length == POOL && video.Length == 2 * POOL && i < |list| && p == list[i]
      requires |was| == POOL && InPool(was, list) && Distinct(list) && pool[..] == TickedFirst(was, list, i)
      requires forall j | 0 <= j < |list| :: was[list[j]].location < POOL
      modifies pool, video
      ensures pool[..] == TickedFirst(was, list, i + 1) && next == was[p].next
      ensures Poked(old(video[..]), was, list, i) == Poked(video[..], was, list, i + 1)
    {
      NextUnticked(was, list, i);
      TickNode(p);
      next := pool[p].next;
    }

    /** The body of the tasklet's loop. */
    method TickNode(p: int)
      requires pool.Length == POOL && video.Length == 2 * POOL && 0 <= p < POOL && pool[p].location < POOL
      modifies pool, video
      ensures pool[..] == old(pool[..])[p := Ticked(old(pool[p]))]
      ensures video[..] == if StillCounting(old(pool[p]).countdown) then old(video[..])
                           else old(video[..])[2 * old(pool[p]).location := ShownChar(Ticked(old(pool[p])))]
    {
      pool[p] := pool[p].(countdown := Decremented(pool[p].countdown));
      if 0 < pool[p].countdown < 0x8000 { return; }
      if pool[p].status % 2 == 1 {
        Poke(pool[p].location, pool[p].offChar);
        pool[p] := pool[p].(countdown := pool[p].offLength, status := pool[p].status - 1);
      } else {
        Poke(pool[p].location, pool[p].onChar);
        var status: int := pool[p].status;
        pool[p] := pool[p].(countdown := pool[p].onLength, status := status + 1);
      }
    }

    /** The search for the pointer that leads to p. */
    method FindPrev(p: int, ghost i: nat) returns (prev: int)
      requires Valid() && i < |list| && p == list[i]
      ensures prev == if i == 0 then NULL else list[i - 1]
    {
      ListInPool(pool[..], head, list);
      prev := NULL;
      var at := head;
      ghost var j := 0;
      while at != p
        invariant 0 <= j <= i && 0 <= at < POOL && at == list[j] && prev == if j == 0 then NULL else list[j - 1]
        decreases i - j
      {
        assert NodeAt(pool[..], list, j);
        prev := at;
        at := pool[at].next;
        j := j + 1;
      }
    }
  }
}
