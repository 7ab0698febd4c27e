/** Text pages: how stores to a 4096-byte page move the window of a tape. */
module Screen {
  import opened Machine
  import opened Memory
  import opened Tapes

  const ATTRIB: byte := 7

  /** Four physical pages from 0xB8000 on: the display, then one backing page per terminal. */
  const VIDEO_BYTES := 16384

  /** Offset of the character byte of cell i. */
  function Address(page: int, i: int): int {
    4096 * page + 2 * i
  }

  ghost predicate Shows(video: seq<byte>, page: int, t: Tape) {
    && |video| == VIDEO_BYTES && 0 <= page < 4
    && forall i {:trigger CellOf(t, i)} | 0 <= i < CELLS :: video[Address(page, i)] == CellOf(t, i)
  }

  ghost predicate SamePage(a: seq<byte>, b: seq<byte>, page: int) {
    && |a| == |b| == VIDEO_BYTES && 0 <= page < 4
    && forall k | 4096 * page <= k < 4096 * page + 4096 :: a[k] == b[k]
  }

  /** Page q of `now` is page p of `was`. */
  ghost predicate PageCopied(now: seq<byte>, q: int, was: seq<byte>, p: int) {
    && |now| == |was| == VIDEO_BYTES && 0 <= p < 4 && 0 <= q < 4
    && forall k | 4096 * q <= k < 4096 * q + 4096 :: now[k] == was[k - 4096 * q + 4096 * p]
  }

  lemma ShowsFrame(now: seq<byte>, was: seq<byte>, page: int, t: Tape)
    requires SamePage(now, was, page) && Shows(was, page, t)
    ensures Shows(now, page, t)
  {
  }

  lemma ShowsCopied(now: seq<byte>, q: int, was: seq<byte>, p: int, t: Tape)
    requires PageCopied(now, q, was, p) && Shows(was, p, t)
    ensures Shows(now, q, t)
  {
    forall i | 0 <= i < CELLS ensures now[Address(q, i)] == CellOf(t, i) {
      assert now[Address(q, i)] == was[Address(q, i) - 4096 * q + 4096 * p];
      assert was[Address(p, i)] == CellOf(t, i);
    }
  }

  /** The cursor column and row of a tape; the row below the window is reached only at column 0. */
  predicate CursorAt(x: int, y: int, t: Tape) {
    0 <= x < 80 && 0 <= y <= 25 && (y == 25 ==> x == 0) && 80 * t.top + 80 * y + x == |t.text|
  }

  /** A character and its attribute, always inside the page. */
  function Stored(video: seq<byte>, page: int, i: int, c: byte): (r: seq<byte>)
    requires |video| == VIDEO_BYTES && 0 <= page < 4 && 0 <= i < 2048
    ensures |r| == |video|
  {
    video[Address(page, i) := c][Address(page, i) + 1 := ATTRIB]
  }

  lemma StoredElsewhere(video: seq<byte>, page: int, i: int, c: byte, other: int)
    requires |video| == VIDEO_BYTES && 0 <= page < 4 && 0 <= i < 2048 && 0 <= other < 4 && other != page
    ensures SamePage(Stored(video, page, i, c), video, other)
  {
  }

  /** Only the page written to changes. */
  ghost predicate OthersSame(now: seq<byte>, was: seq<byte>, page: int) {
    forall q | 0 <= q < 4 && q != page :: SamePage(now, was, q)
  }

  lemma OthersSameTwice(now: seq<byte>, mid: seq<byte>, was: seq<byte>, page: int)
    requires OthersSame(now, mid, page) && OthersSame(mid, was, page)
    ensures OthersSame(now, was, page)
  {
    forall q | 0 <= q < 4 && q != page ensures SamePage(now, was, q) {
      assert SamePage(now, mid, q) && SamePage(mid, was, q);
    }
  }

  lemma StoredKeepsOthers(was: seq<byte>, mid: seq<byte>, page: int, i: int, c: byte)
    requires |mid| == VIDEO_BYTES && 0 <= page < 4 && 0 <= i < 2048 && OthersSame(mid, was, page)
    ensures OthersSame(Stored(mid, page, i, c), was, page)
  {
    forall q | 0 <= q < 4 && q != page ensures SamePage(Stored(mid, page, i, c), was, q) {
      StoredElsewhere(mid, page, i, c, q);
      assert SamePage(mid, was, q);
    }
  }

  /** A character stored at the cursor extends the tape by that character. */
  lemma StoredAtCursor(video: seq<byte>, page: int, t: Tape, i: int, c: byte)
    requires Shows(video, page, t) && 0 <= i < CELLS && 80 * t.top + i == |t.text|
    ensures Shows(Stored(video, page, i, c), page, Tape(t.top, t.text + [c]))
  {
    var n := Stored(video, page, i, c);
    var u := Tape(t.top, t.text + [c]);
    forall j | 0 <= j < CELLS ensures n[Address(page, j)] == CellOf(u, j) {
      CellAppended(t, c, j);
      StoredCell(video, page, i, c, j);
      assert video[Address(page, j)] == CellOf(t, j);
    }
  }

  lemma StoredCell(video: seq<byte>, page: int, i: int, c: byte, j: int)
    requires |video| == VIDEO_BYTES && 0 <= page < 4 && 0 <= i < 2048 && 0 <= j < 2048
    ensures Stored(video, page, i, c)[Address(page, j)] == if j == i then c else video[Address(page, j)]
  {
  }

  /** A blank stored at or behind the cursor changes nothing that is shown. */
  lemma BlankBehindCursor(video: seq<byte>, page: int, t: Tape, i: int)
    requires Shows(video, page, t) && 0 <= i < 2048 && 80 * t.top + i >= |t.text|
    ensures Shows(Stored(video, page, i, SPACE), page, t)
  {
    var n := Stored(video, page, i, SPACE);
    forall j | 0 <= j < CELLS ensures n[Address(page, j)] == CellOf(t, j) {
      StoredCell(video, page, i, SPACE, j);
      assert video[Address(page, j)] == CellOf(t, j);
    }
  }

  /** Blanks at the end of a tape cannot be seen. */
  lemma PaddingInvisible(video: seq<byte>, page: int, t: Tape, n: nat)
    requires Shows(video, page, t)
    ensures Shows(video, page, Tape(t.top, t.text + Blanks(n)))
  {
    var u := Tape(t.top, t.text + Blanks(n));
    forall j | 0 <= j < CELLS ensures video[Address(page, j)] == CellOf(u, j) {
      assert video[Address(page, j)] == CellOf(t, j);
    }
  }

  /** Blanking the last cell rubs it out. */
  lemma StoredErases(video: seq<byte>, now: seq<byte>, page: int, t: Tape, i: int)
    requires Shows(video, page, t) && 0 <= i < CELLS && 80 * t.top + i + 1 == |t.text|
    requires now == video[Address(page, i) := SPACE]
    ensures Shows(now, page, Erased(t))
  {
    var u := Erased(t);
    forall j | 0 <= j < CELLS ensures now[Address(page, j)] == CellOf(u, j) {
      assert video[Address(page, j)] == CellOf(t, j);
    }
  }

  // ----- routines on one page

  method StoreCell(video: array<byte>, page: int, i: int, c: byte)
    requires video.Length == VIDEO_BYTES && 0 <= page < 4 && 0 <= i < 2048
    modifies video
    ensures video[..] == Stored(old(video[..]), page, i, c)
  {
    video[Address(page, i)] := c;
    video[Address(page, i) + 1] := ATTRIB;
  }

  /** scroll and tscroll: move 24 rows up with memmove, blank the last. */
  method ScrollPage(video: array<byte>, page: int, ghost t: Tape)
    requires video.Length == VIDEO_BYTES && 0 <= page < 4 && Shows(video[..], page, t) && |t.text| == 80 * t.top + CELLS
    modifies video
    ensures Shows(video[..], page, Tape(t.top + 1, t.text))
    ensures OthersSame(video[..], old(video[..]), page)
  {
    ghost var was := video[..];
    MemMove(video, 4096 * page, 4096 * page + 160, 3840);
    ghost var mid := video[..];
    MemSetWord(video, 4096 * page + 3840, SPACE, 80);
    ScrollShows(video[..], mid, was, page, 4096 * page + 3840, t);
    forall q | 0 <= q < 4 && q != page ensures SamePage(video[..], was, q) {
      forall k | 4096 * q <= k < 4096 * q + 4096 ensures video[..][k] == was[k] {
        assert MovedAt(mid, was, 4096 * page, 4096 * page + 160, 3840, k);
        assert video[k] == mid[k];
      }
    }
  }

  lemma ScrollShows(now: seq<byte>, mid: seq<byte>, was: seq<byte>, page: int, last: int, t: Tape)
    requires Shows(was, page, t) && |t.text| == 80 * t.top + CELLS && |now| == |mid| == VIDEO_BYTES
    requires Moved(mid, was, 4096 * page, 4096 * page + 160, 3840)
    requires last == 4096 * page + 3840 && forall i | 0 <= i < 80 :: now[WordAt(last, i)] == SPACE
    requires forall k | 4096 * page <= k < 4096 * page + 3840 :: now[k] == mid[k]
    ensures Shows(now, page, Tape(t.top + 1, t.text))
  {
    var u := Tape(t.top + 1, t.text);
    forall j | 0 <= j < CELLS ensures now[Address(page, j)] == CellOf(u, j) {
      if j < 1920 {
        assert now[4096 * page + 2 * j] == mid[4096 * page + 2 * j];
        assert MovedAt(mid, was, 4096 * page, 4096 * page + 160, 3840, 4096 * page + 2 * j);
        assert was[Address(page, j + 80)] == CellOf(t, j + 80) == CellOf(u, j);
      } else {
        assert now[WordAt(last, j - 1920)] == SPACE;
      }
    }
  }

  /** The page copy of a terminal switch. */
  method CopyPage(video: array<byte>, q: int, p: int)
    requires video.Length == VIDEO_BYTES && 0 <= p < 4 && 0 <= q < 4 && p != q
    modifies video
    ensures PageCopied(video[..], q, old(video[..]), p)
    ensures OthersSame(video[..], old(video[..]), q)
  {
    ghost var was := video[..];
    MemCpy(video, 4096 * q, 4096 * p, 4096);
    ghost var now := video[..];
    forall k | 4096 * q <= k < 4096 * q + 4096 ensures now[k] == was[k - 4096 * q + 4096 * p] {
      assert MovedAt(now, was, 4096 * q, 4096 * p, 4096, k);
    }
    forall r | 0 <= r < 4 && r != q ensures SamePage(video[..], was, r) {
      forall k | 4096 * r <= k < 4096 * r + 4096 ensures video[..][k] == was[k] {
        assert MovedAt(video[..], was, 4096 * q, 4096 * p, 4096, k);
      }
    }
  }
}
