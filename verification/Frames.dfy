/** The requests of add_frames served by the blink list: one node per wanted cell, each on screen. */
module Frames {
  import opened Machine
  import opened Blinking
  import opened BlinkRuns
  import opened Fish

  /** The structure add_frames fills in; the add itself sets the other fields. */
  function RequestOf(c: Cell): Blink {
    Blink(c.location, c.onChar, c.offChar, 15, 15, 0, 0, NULL)
  }

  function Adds(cells: seq<Cell>): (r: seq<Request>)
    ensures |r| == |cells|
  {
    seq(|cells|, k requires 0 <= k < |cells| => Add(RequestOf(cells[k])))
  }

  /** The zeroed pool before the first request. */
  function Empty(video: seq<byte>): Blinks {
    Blinks(seq(POOL, _ => ZERO), NULL, [], video)
  }

  lemma EmptyIsSound(video: seq<byte>)
    requires |video| == 2 * POOL
    ensures Sound(Empty(video)) && Apart(Empty(video)) && AllShown(Empty(video))
  {
  }

  /** What AddFrames issues, when every cell lies on the grid and on the screen. */
  ghost predicate Issued(f0: seq<byte>, f1: seq<byte>, cells: seq<Cell>) {
    && Ordered(cells)
    && forall k | 0 <= k < |cells| :: Wanted(f0, f1, cells[k]) && OnGrid(cells[k]) && cells[k].location < POOL
  }

  lemma CellsDiffer(f0: seq<byte>, f1: seq<byte>, cells: seq<Cell>, j: nat, k: nat)
    requires Issued(f0, f1, cells) && j < k < |cells|
    ensures cells[j].location != cells[k].location && cells[k].location != 0
  {
    assert Before(cells[j], cells[k]);
    LocationsApart(f0, f1, cells[j], cells[k]);
  }

  function Locations(cells: seq<Cell>): (r: seq<int>)
    ensures |r| == |cells| && forall k | 0 <= k < |r| :: r[k] == cells[k].location
  {
    seq(|cells|, k requires 0 <= k < |cells| => cells[k].location)
  }

  lemma LocationInRange(f0: seq<byte>, f1: seq<byte>, cells: seq<Cell>, p: int)
    requires Issued(f0, f1, cells) && p in Locations(cells)
    ensures 0 < p < POOL
  {
    var k :| 0 <= k < |cells| && Locations(cells)[k] == p;
    LocationsApart(f0, f1, cells[k], cells[k]);
  }

  /** There is room for all of them: at most 1999 different locations are neither 0 nor off the screen. */
  lemma CellsFit(f0: seq<byte>, f1: seq<byte>, cells: seq<Cell>)
    requires Issued(f0, f1, cells)
    ensures |cells| < POOL
  {
    var locations := Locations(cells);
    forall i, j | 0 <= i < j < |locations| ensures locations[i] != locations[j] { CellsDiffer(f0, f1, cells, i, j); }
    UsedCount(locations);
    var used := set p | p in locations;
    forall p | p in used ensures p in Slots(POOL) - {0} { LocationInRange(f0, f1, cells, p); }
    SubsetNoLarger(used, Slots(POOL) - {0});
  }

  lemma SubsetNoLarger(a: set<int>, b: set<int>)
    requires a <= b
    ensures |a| <= |b|
  {
    assert |b - a| == |b| - |a|;
  }

  /** The node in this slot is the one that cell c asked for, in its first tick. */
  ghost predicate NodeFor(s: Blinks, p: int, c: Cell) {
    |s.pool| == POOL && 0 <= p < POOL && s.pool[p] == RequestOf(c).(status := 1, countdown := 15, next := s.pool[p].next)
  }

  /** The first n cells have a node each, latest first, and all are on screen. */
  ghost predicate Served(s: Blinks, cells: seq<Cell>, n: nat) {
    && Sound(s) && Apart(s) && AllShown(s) && |s.list| == n <= |cells|
    && forall k | 0 <= k < n :: NodeFor(s, s.list[n - 1 - k], cells[k])
  }

  lemma CellIsFree(f0: seq<byte>, f1: seq<byte>, s: Blinks, cells: seq<Cell>, n: nat)
    requires Issued(f0, f1, cells) && Served(s, cells, n) && n < |cells|
    ensures Found(s, cells[n].location) == NULL && FreeSlot(s.pool, 0) != NULL && cells[n].location != 0
  {
    CellsFit(f0, f1, cells);
    FullIffNoSlot(s.pool, s.head, s.list);
    LocationsApart(f0, f1, cells[n], cells[n]);
    var p := Found(s, cells[n].location);
    if p != NULL {
      var i :| 0 <= i < n && s.list[i] == p;
      var k := n - 1 - i;
      assert NodeFor(s, s.list[n - 1 - k], cells[k]);
      CellsDiffer(f0, f1, cells, k, n);
    }
  }

  lemma ServesNext(f0: seq<byte>, f1: seq<byte>, s: Blinks, cells: seq<Cell>, n: nat)
    requires Issued(f0, f1, cells) && Served(s, cells, n) && n < |cells|
    ensures Served(Step(s, Add(RequestOf(cells[n]))).0, cells, n + 1)
  {
    var e := Add(RequestOf(cells[n]));
    CellIsFree(f0, f1, s, cells, n);
    StepKeeps(s, e);
    StepApartIff(s, e);
    ApartAgree(Step(s, e).0);
    StepShownIff(s, e);
    var t, p := Step(s, e).0, FreeSlot(s.pool, 0);
    forall k | 0 <= k < n + 1 ensures NodeFor(t, t.list[n - k], cells[k]) {
      if k < n {
        assert NodeFor(s, s.list[n - 1 - k], cells[k]);
        InList(s, s.list[n - 1 - k]);
        assert t.list[n - k] == s.list[n - 1 - k] != p;
      }
    }
  }

  lemma {:induction false} ServedTo(f0: seq<byte>, f1: seq<byte>, ss: seq<Blinks>, cells: seq<Cell>, n: nat)
    requires Issued(f0, f1, cells) && IsRun(ss, Adds(cells)) && n <= |cells| && Served(ss[0], cells, 0)
    ensures Served(ss[n], cells, n)
    decreases n
  {
    if n > 0 {
      ServedTo(f0, f1, ss, cells, n - 1);
      RunKeeps(ss, Adds(cells), n - 1);
      ServesNext(f0, f1, ss[n - 1], cells, n - 1);
    }
  }

  /**
   * Serving the requests of add_frames from an empty pool leaves exactly one node for each wanted cell,
   * in a cell of its own, lit and showing the first file's character.
   */
  lemma FramesServed(f0: seq<byte>, f1: seq<byte>, video: seq<byte>, cells: seq<Cell>, ss: seq<Blinks>)
    requires |video| == 2 * POOL && (forall c: Cell :: c in cells <==> Wanted(f0, f1, c)) && Ordered(cells)
    requires forall c | c in cells :: OnGrid(c) && c.location < POOL
    requires IsRun(ss, Adds(cells)) && ss[0] == Empty(video)
    ensures Served(ss[|cells|], cells, |cells|)
    ensures forall k | 0 <= k < |cells| :: ss[|cells|].video[2 * cells[k].location] == cells[k].onChar
  {
    EmptyIsSound(video);
    forall k | 0 <= k < |cells| ensures Wanted(f0, f1, cells[k]) && OnGrid(cells[k]) && cells[k].location < POOL {
      assert cells[k] in cells;
    }
    ServedTo(f0, f1, ss, cells, |cells|);
    var s, n := ss[|cells|], |cells|;
    forall k | 0 <= k < n ensures s.video[2 * cells[k].location] == cells[k].onChar {
      assert NodeFor(s, s.list[n - 1 - k], cells[k]);
      InList(s, s.list[n - 1 - k]);
      assert Listed(s, s.list[n - 1 - k]);
    }
  }
}
