/** add_frames of fish/fish.c: two text files merged cell by cell into blinking characters. */
module Fish {
  import opened Machine

  const OFFSET := 40

  /** One RTC_ADD request: row and column it stands for, the 16-bit location it carries, and a character of each file. */
  datatype Cell = Cell(row: nat, col: nat, location: u16, onChar: byte, offChar: byte)

  /** The location of a cell, as the 16-bit field holds it. */
  function Location(row: nat, col: nat): u16 {
    (row * 80 + col + OFFSET) % 0x1_0000
  }

  // ----- rows of a file, by the offset at which they start; |f| + 1 stands for "past the end"

  function RowEnd(f: seq<byte>, i: nat): (e: nat)
    requires i <= |f|
    ensures i <= e <= |f|
    decreases |f| - i
  {
    if i == |f| || f[i] == NEWLINE then i else RowEnd(f, i + 1)
  }

  /** RowEnd is the first newline, or the end of the file. */
  lemma {:induction false} RowEndIsFirst(f: seq<byte>, i: nat, k: nat)
    requires i <= k <= |f|
    ensures k < RowEnd(f, i) ==> f[k] != NEWLINE
    ensures k == RowEnd(f, i) < |f| ==> f[k] == NEWLINE
    decreases |f| - i
  {
    if i < |f| && f[i] != NEWLINE {
      if k > i { RowEndIsFirst(f, i + 1, k); }
    }
  }

  function RowLength(f: seq<byte>, start: nat): (n: nat)
    requires start <= |f| + 1
    ensures start + n <= |f| + 1
  {
    if start > |f| then 0 else RowEnd(f, start) - start
  }

  function NextRow(f: seq<byte>, start: nat): (r: nat)
    requires start <= |f| + 1
    ensures r <= |f| + 1 && (start <= |f| ==> r > start) && (start > |f| ==> r == start)
  {
    if start > |f| then start else RowEnd(f, start) + 1
  }

  /** Start of row r. */
  function RowStart(f: seq<byte>, r: nat): (s: nat)
    ensures s <= |f| + 1
  {
    if r == 0 then 0 else NextRow(f, RowStart(f, r - 1))
  }

  /** Column `col` of the row that starts at `start`: short and missing rows are padded with spaces. */
  function Padded(f: seq<byte>, start: nat, col: nat): byte
    requires start <= |f| + 1
  {
    if col < RowLength(f, start) then f[start + col] else SPACE
  }

  function CharAt(f: seq<byte>, row: nat, col: nat): byte {
    Padded(f, RowStart(f, row), col)
  }

  // ----- the cells, in the order of the two loops

  function Max(a: int, b: int): int {
    if a < b then b else a
  }

  function ColumnCells(x: byte, y: byte, row: nat, col: nat): seq<Cell> {
    if x != SPACE || y != SPACE then [Cell(row, col, Location(row, col), x, y)] else []
  }

  /** The requests of the first `cols` columns of row r, which starts at s0 and s1 in the two files. */
  function RowCells(f0: seq<byte>, s0: nat, f1: seq<byte>, s1: nat, r: nat, cols: nat): seq<Cell>
    requires s0 <= |f0| + 1 && s1 <= |f1| + 1
  {
    if cols == 0 then []
    else RowCells(f0, s0, f1, s1, r, cols - 1) + ColumnCells(Padded(f0, s0, cols - 1), Padded(f1, s1, cols - 1), r, cols - 1)
  }

  function Width(f0: seq<byte>, s0: nat, f1: seq<byte>, s1: nat): nat
    requires s0 <= |f0| + 1 && s1 <= |f1| + 1
  {
    Max(RowLength(f0, s0), RowLength(f1, s1))
  }

  /** The requests of row r. */
  function RowOf(f0: seq<byte>, f1: seq<byte>, r: nat): seq<Cell> {
    RowCells(f0, RowStart(f0, r), f1, RowStart(f1, r), r, Width(f0, RowStart(f0, r), f1, RowStart(f1, r)))
  }

  /** The requests of the first `rows` rows. */
  function FirstRows(f0: seq<byte>, f1: seq<byte>, rows: nat): seq<Cell> {
    if rows == 0 then [] else FirstRows(f0, f1, rows - 1) + RowOf(f0, f1, rows - 1)
  }

  /** A cell is requested exactly when at least one file has something other than a space there. */
  ghost predicate Wanted(f0: seq<byte>, f1: seq<byte>, c: Cell) {
    && c.location == Location(c.row, c.col) && c.onChar == CharAt(f0, c.row, c.col) && c.offChar == CharAt(f1, c.row, c.col)
    && (c.onChar != SPACE || c.offChar != SPACE)
  }

  predicate Before(a: Cell, b: Cell) {
    a.row < b.row || (a.row == b.row && a.col < b.col)
  }

  ghost predicate Ordered(cells: seq<Cell>) {
    forall i, j | 0 <= i < j < |cells| :: Before(cells[i], cells[j])
  }

  /** All cells lie before row r, column c. */
  ghost predicate EndBefore(cells: seq<Cell>, r: nat, c: nat) {
    forall i | 0 <= i < |cells| :: cells[i].row < r || (cells[i].row == r && cells[i].col < c)
  }

  ghost predicate StartAt(cells: seq<Cell>, r: nat, c: nat) {
    forall i | 0 <= i < |cells| :: cells[i].row > r || (cells[i].row == r && cells[i].col >= c)
  }

  lemma JoinOrdered(a: seq<Cell>, b: seq<Cell>, r: nat, c: nat)
    requires Ordered(a) && Ordered(b) && EndBefore(a, r, c) && StartAt(b, r, c)
    ensures Ordered(a + b)
  {
  }

  lemma {:induction false} RowOrdered(f0: seq<byte>, s0: nat, f1: seq<byte>, s1: nat, r: nat, cols: nat)
    requires s0 <= |f0| + 1 && s1 <= |f1| + 1
    ensures var cells := RowCells(f0, s0, f1, s1, r, cols);
      Ordered(cells) && EndBefore(cells, r, cols) && StartAt(cells, r, 0)
    decreases cols
  {
    if cols > 0 {
      RowOrdered(f0, s0, f1, s1, r, cols - 1);
      JoinOrdered(RowCells(f0, s0, f1, s1, r, cols - 1),
                  ColumnCells(Padded(f0, s0, cols - 1), Padded(f1, s1, cols - 1), r, cols - 1), r, cols - 1);
    }
  }

  lemma {:induction false} FirstRowsOrdered(f0: seq<byte>, f1: seq<byte>, rows: nat)
    ensures Ordered(FirstRows(f0, f1, rows)) && EndBefore(FirstRows(f0, f1, rows), rows, 0)
    decreases rows
  {
    if rows > 0 {
      var r := rows - 1;
      FirstRowsOrdered(f0, f1, r);
      RowOrdered(f0, RowStart(f0, r), f1, RowStart(f1, r), r, Width(f0, RowStart(f0, r), f1, RowStart(f1, r)));
      JoinOrdered(FirstRows(f0, f1, r), RowOf(f0, f1, r), r, 0);
    }
  }

  lemma {:induction false} RowMembers(f0: seq<byte>, s0: nat, f1: seq<byte>, s1: nat, r: nat, cols: nat, c: Cell)
    requires s0 <= |f0| + 1 && s1 <= |f1| + 1
    ensures c in RowCells(f0, s0, f1, s1, r, cols) <==>
      c.row == r && c.col < cols && c.location == Location(r, c.col)
      && c.onChar == Padded(f0, s0, c.col) && c.offChar == Padded(f1, s1, c.col)
      && (c.onChar != SPACE || c.offChar != SPACE)
    decreases cols
  {
    if cols > 0 { RowMembers(f0, s0, f1, s1, r, cols - 1, c); }
  }

  /** A cell is among the requests of the first rows exactly when it is wanted and lies in one of them. */
  lemma {:induction false} FirstRowsMembers(f0: seq<byte>, f1: seq<byte>, rows: nat, c: Cell)
    ensures c in FirstRows(f0, f1, rows) <==> c.row < rows && Wanted(f0, f1, c)
    decreases rows
  {
    if rows > 0 {
      var r := rows - 1;
      FirstRowsMembers(f0, f1, r, c);
      assert c in FirstRows(f0, f1, rows) <==> c in FirstRows(f0, f1, r) || c in RowOf(f0, f1, r);
      RowMembers(f0, RowStart(f0, r), f1, RowStart(f1, r), r, Width(f0, RowStart(f0, r), f1, RowStart(f1, r)), c);
    }
  }

  lemma {:induction false} PastTheEnd(f: seq<byte>, r: nat, later: nat)
    requires r <= later && RowStart(f, r) > |f|
    ensures RowStart(f, later) > |f|
    decreases later - r
  {
    if r < later {
      assert RowStart(f, r + 1) == NextRow(f, RowStart(f, r));
      PastTheEnd(f, r + 1, later);
    }
  }

  /** Nothing is wanted below the end of both files. */
  lemma NothingBelow(f0: seq<byte>, f1: seq<byte>, rows: nat, c: Cell)
    requires RowStart(f0, rows) > |f0| && RowStart(f1, rows) > |f1| && Wanted(f0, f1, c)
    ensures c.row < rows
  {
    if c.row >= rows {
      PastTheEnd(f0, rows, c.row);
      PastTheEnd(f1, rows, c.row);
    }
  }

  // ----- where each byte of a file goes

  /** How many newlines stand before byte i. */
  function RowNo(f: seq<byte>, i: nat): nat
    requires i <= |f|
  {
    if i == 0 then 0 else RowNo(f, i - 1) + (if f[i - 1] == 10 then 1 else 0)
  }

  /** How many bytes stand between the last newline and byte i. */
  function ColNo(f: seq<byte>, i: nat): (c: nat)
    requires i <= |f|
    ensures c <= i && forall k | i - c <= k < i :: f[k] != 10
  {
    if i == 0 || f[i - 1] == 10 then 0 else ColNo(f, i - 1) + 1
  }

  lemma RowEndBehind(f: seq<byte>, start: nat, i: nat)
    requires start <= i <= |f| && forall k | start <= k < i :: f[k] != 10
    ensures RowEnd(f, start) >= i && (i < |f| && f[i] == 10 ==> RowEnd(f, start) == i)
    ensures i < |f| && f[i] != 10 ==> RowEnd(f, start) > i
  {
    RowEndIsFirst(f, start, RowEnd(f, start));
    RowEndIsFirst(f, start, i);
  }

  lemma {:induction false} RowStartOf(f: seq<byte>, i: nat)
    requires i <= |f|
    ensures RowStart(f, RowNo(f, i)) == i - ColNo(f, i)
    decreases i
  {
    if i > 0 {
      RowStartOf(f, i - 1);
      RowEndBehind(f, i - 1 - ColNo(f, i - 1), i - 1);
    }
  }

  lemma {:induction false} AlongRow(f: seq<byte>, start: nat, col: nat)
    requires start + col <= |f| && ColNo(f, start) == 0 && forall k | start <= k < start + col :: f[k] != 10
    ensures RowNo(f, start + col) == RowNo(f, start) && ColNo(f, start + col) == col
    decreases col
  {
    if col > 0 { AlongRow(f, start, col - 1); }
  }

  lemma BeforeRowEnd(f: seq<byte>, start: nat, k: nat)
    requires start <= |f| && start <= k < RowEnd(f, start)
    ensures k < |f| && f[k] != 10
  {
    RowEndIsFirst(f, start, k);
  }

  lemma {:induction false} RowStarts(f: seq<byte>, row: nat)
    requires RowStart(f, row) <= |f|
    ensures RowNo(f, RowStart(f, row)) == row && ColNo(f, RowStart(f, row)) == 0
    decreases row
  {
    if row > 0 {
      var start := RowStart(f, row - 1);
      RowStarts(f, row - 1);
      forall k | start <= k < RowEnd(f, start) ensures f[k] != 10 { BeforeRowEnd(f, start, k); }
      AlongRow(f, start, RowEnd(f, start) - start);
      RowEndIsFirst(f, start, RowEnd(f, start));
    }
  }

  /** Byte i of f is the character of this row and column. */
  ghost predicate PlacedAt(f: seq<byte>, i: nat, row: nat, col: nat) {
    i < |f| && f[i] != 10 && RowNo(f, i) == row && ColNo(f, i) == col
  }

  /** x is the character at a row and column of f, blank where f has none. */
  ghost predicate CharIs(f: seq<byte>, row: nat, col: nat, x: byte) {
    && (forall i: nat | PlacedAt(f, i, row, col) :: f[i] == x)
    && ((forall i: nat :: !PlacedAt(f, i, row, col)) ==> x == 32)
  }

  lemma PaddedInRow(f: seq<byte>, start: nat, i: nat)
    requires start <= i < |f| && forall k | start <= k <= i :: f[k] != 10
    ensures Padded(f, start, i - start) == f[i]
  {
    RowEndBehind(f, start, i);
  }

  lemma CharInRow(f: seq<byte>, row: nat, i: nat)
    requires RowStart(f, row) <= i < |f| && forall k | RowStart(f, row) <= k <= i :: f[k] != 10
    ensures CharAt(f, row, i - RowStart(f, row)) == f[i]
  {
    PaddedInRow(f, RowStart(f, row), i);
  }

  lemma PlacedIsChar(f: seq<byte>, i: nat, row: nat, col: nat)
    requires PlacedAt(f, i, row, col)
    ensures CharAt(f, row, col) == f[i]
  {
    PlacedStart(f, i, row, col);
    CharInRow(f, row, i);
  }

  lemma PlacedStart(f: seq<byte>, i: nat, row: nat, col: nat)
    requires PlacedAt(f, i, row, col)
    ensures col <= i && RowStart(f, row) == i - col && forall k | i - col <= k <= i :: f[k] != 10
  {
    RowStartOf(f, i);
  }

  lemma CharIsPlaced(f: seq<byte>, row: nat, col: nat)
    requires col < RowLength(f, RowStart(f, row))
    ensures PlacedAt(f, RowStart(f, row) + col, row, col)
  {
    var start := RowStart(f, row);
    RowStarts(f, row);
    forall k | start <= k <= start + col ensures f[k] != 10 { BeforeRowEnd(f, start, k); }
    AlongRow(f, start, col);
  }

  lemma CharAtIs(f: seq<byte>, row: nat, col: nat, x: byte)
    ensures CharIs(f, row, col, x) <==> CharAt(f, row, col) == x
  {
    forall i: nat | PlacedAt(f, i, row, col) ensures f[i] == CharAt(f, row, col) { PlacedIsChar(f, i, row, col); }
    if col < RowLength(f, RowStart(f, row)) { CharIsPlaced(f, row, col); }
  }

  /** The cells wanted are those where a file has a non-space, at 40 cells behind 80 a row, with the two files' characters. */
  lemma WantedIff(f0: seq<byte>, f1: seq<byte>, c: Cell)
    ensures Wanted(f0, f1, c) <==>
      c.location == (80 * c.row + c.col + 40) % 0x1_0000
      && CharIs(f0, c.row, c.col, c.onChar) && CharIs(f1, c.row, c.col, c.offChar) && !(c.onChar == 32 && c.offChar == 32)
  {
    CharAtIs(f0, c.row, c.col, c.onChar);
    CharAtIs(f1, c.row, c.col, c.offChar);
  }

  /** Row and column of a cell of the 80-column screen whose location has not wrapped around. */
  predicate OnGrid(c: Cell) {
    c.col < 80 && c.row * 80 + c.col + OFFSET < 0x1_0000
  }

  lemma GridInjective(r: nat, c: nat, u: nat, v: nat)
    requires c < 80 && v < 80 && 80 * r + c == 80 * u + v
    ensures r == u && c == v
  {
    assert r - u < 1 && u - r < 1;
  }

  lemma NoWrap(c: Cell)
    requires OnGrid(c)
    ensures Location(c.row, c.col) == 80 * c.row + c.col + OFFSET
  {
  }

  /** Different cells of the grid are added at different locations, and none at 0. */
  lemma LocationsApart(f0: seq<byte>, f1: seq<byte>, a: Cell, b: Cell)
    requires Wanted(f0, f1, a) && Wanted(f0, f1, b) && OnGrid(a) && OnGrid(b)
    ensures a.location != 0 && (a.location == b.location <==> a == b)
  {
    NoWrap(a);
    NoWrap(b);
    if a.location == b.location { GridInjective(a.row, a.col, b.row, b.col); }
  }

  // ----- the loops

  /** ece391_read(fd, &c, 1): end of file leaves a newline and raises the flag. */
  method ReadChar(f: seq<byte>, p: nat) returns (c: byte, eof: bool, next: nat)
    requires p <= |f|
    ensures if p < |f| then c == f[p] && !eof && next == p + 1 else c == NEWLINE && eof && next == p
  {
    if p < |f| { return f[p], false, p + 1; }
    return NEWLINE, true, p;
  }

  /** One file inside a row: `c` the last character read, `p` the next offset to read. */
  ghost predicate InRow(f: seq<byte>, start: nat, col: nat, c: byte, eof: bool, p: nat) {
    && start <= |f| + 1 && p <= |f|
    && (c != NEWLINE ==> start <= |f| && !eof && p == start + col && col <= RowLength(f, start))
    && (c == NEWLINE ==> col >= RowLength(f, start) && NextRow(f, start) == if eof then |f| + 1 else p)
  }

  method Advance(f: seq<byte>, ghost start: nat, ghost col: nat, c: byte, eof: bool, p: nat)
    returns (c': byte, eof': bool, p': nat)
    requires InRow(f, start, col, c, eof, p)
    ensures c' == NEWLINE <==> col >= RowLength(f, start)
    ensures c' != NEWLINE ==> start + col < |f| && c' == f[start + col]
    ensures InRow(f, start, col + 1, c', eof', p')
  {
    c', eof', p' := c, eof, p;
    if c != NEWLINE {
      RowEndIsFirst(f, start, p);
      c', eof', p' := ReadChar(f, p);
    }
  }

  /** The test and the request at one column. */
  method Column(c0: byte, c1: byte, row: nat, col: nat) returns (cells: seq<Cell>)
    ensures cells == ColumnCells(if c0 == NEWLINE then SPACE else c0, if c1 == NEWLINE then SPACE else c1, row, col)
  {
    if (c0 != SPACE && c0 != NEWLINE) || (c1 != SPACE && c1 != NEWLINE) {
      var location: u16 := (row * 80 + col + 40) % 0x1_0000;
      return [Cell(row, col, location, if c0 == NEWLINE then SPACE else c0, if c1 == NEWLINE then SPACE else c1)];
    }
    return [];
  }

  /** One column's request behind those of the columns before it. */
  method TakeColumn(cells: seq<Cell>, ghost f0: seq<byte>, ghost s0: nat, c0: byte, ghost f1: seq<byte>, ghost s1: nat, c1: byte,
                    row: nat, col: nat)
    returns (more: seq<Cell>)
    requires s0 <= |f0| + 1 && s1 <= |f1| + 1 && cells == RowCells(f0, s0, f1, s1, row, col)
    requires (if c0 == NEWLINE then SPACE else c0) == Padded(f0, s0, col)
    requires (if c1 == NEWLINE then SPACE else c1) == Padded(f1, s1, col)
    ensures more == RowCells(f0, s0, f1, s1, row, col + 1)
  {
    var here := Column(c0, c1, row, col);
    more := cells + here;
  }

  /** A file before the first character of a row. */
  ghost predicate AtRow(f: seq<byte>, row: nat, c: byte, eof: bool, p: nat) {
    (eof <==> RowStart(f, row) > |f|) && InRow(f, RowStart(f, row), 0, c, eof, p)
  }

  lemma AtNextRow(f: seq<byte>, row: nat, eof: bool, p: nat)
    requires p <= |f| && NextRow(f, RowStart(f, row)) == if eof then |f| + 1 else p
    ensures AtRow(f, row + 1, if eof then NEWLINE else 48, eof, p) && RowStart(f, row + 1) >= RowStart(f, row)
    ensures RowStart(f, row) <= |f| ==> RowStart(f, row + 1) > RowStart(f, row)
  {
  }

  /** One round of the row loop. */
  method TakeRow(issued: seq<Cell>, f0: seq<byte>, c0: byte, eof0: bool, p0: nat,
                 f1: seq<byte>, c1: byte, eof1: bool, p1: nat, row: nat)
    returns (more: seq<Cell>, d0: byte, d1: byte, ends0: bool, ends1: bool, q0: nat, q1: nat)
    requires issued == FirstRows(f0, f1, row) && AtRow(f0, row, c0, eof0, p0) && AtRow(f1, row, c1, eof1, p1)
    ensures more == FirstRows(f0, f1, row + 1) && AtRow(f0, row + 1, d0, ends0, q0) && AtRow(f1, row + 1, d1, ends1, q1)
    ensures RowStart(f0, row + 1) >= RowStart(f0, row) && RowStart(f1, row + 1) >= RowStart(f1, row)
    ensures !eof0 ==> RowStart(f0, row + 1) > RowStart(f0, row)
    ensures !eof1 ==> RowStart(f1, row + 1) > RowStart(f1, row)
  {
    var cells;
    cells, d0, d1, ends0, ends1, q0, q1 :=
      MergeRow(f0, RowStart(f0, row), c0, eof0, p0, f1, RowStart(f1, row), c1, eof1, p1, row);
    AtNextRow(f0, row, ends0, q0);
    AtNextRow(f1, row, ends1, q1);
    more := issued + cells;
    d0 := if ends0 then NEWLINE else 48;
    d1 := if ends1 then NEWLINE else 48;
  }

  /** The row loop of add_frames. */
  method MergeFiles(f0: seq<byte>, f1: seq<byte>) returns (issued: seq<Cell>, rows: nat)
    ensures issued == FirstRows(f0, f1, rows) && RowStart(f0, rows) > |f0| && RowStart(f1, rows) > |f1|
  {
    issued, rows := [], 0;
    var eof0, eof1, p0: nat, p1: nat, c0: byte, c1: byte := false, false, 0, 0, 48, 48;
    while !eof0 || !eof1
      invariant AtRow(f0, rows, c0, eof0, p0) && AtRow(f1, rows, c1, eof1, p1) && issued == FirstRows(f0, f1, rows)
      decreases |f0| + 1 - RowStart(f0, rows) + (|f1| + 1 - RowStart(f1, rows))
    {
      issued, c0, c1, eof0, eof1, p0, p1 := TakeRow(issued, f0, c0, eof0, p0, f1, c1, eof1, p1, rows);
      rows := rows + 1;
    }
  }

  /** add_frames: the requests issued for two readable files, each wanted cell once and in row-major order. */
  method AddFrames(f0: seq<byte>, f1: seq<byte>) returns (issued: seq<Cell>)
    ensures forall c: Cell :: c in issued <==> Wanted(f0, f1, c)
    ensures Ordered(issued)
  {
    var rows;
    issued, rows := MergeFiles(f0, f1);
    FirstRowsOrdered(f0, f1, rows);
    forall c: Cell ensures c in issued <==> Wanted(f0, f1, c) {
      FirstRowsMembers(f0, f1, rows, c);
      if Wanted(f0, f1, c) { NothingBelow(f0, f1, rows, c); }
    }
  }

  /** The inner loop: columns until both files are at the end of their row. */
  method MergeRow(f0: seq<byte>, ghost s0: nat, a0: byte, e0: bool, q0: nat,
                  f1: seq<byte>, ghost s1: nat, a1: byte, e1: bool, q1: nat, row: nat)
    returns (cells: seq<Cell>, c0: byte, c1: byte, eof0: bool, eof1: bool, p0: nat, p1: nat)
    requires InRow(f0, s0, 0, a0, e0, q0) && InRow(f1, s1, 0, a1, e1, q1)
    ensures s0 <= |f0| + 1 && s1 <= |f1| + 1 && cells == RowCells(f0, s0, f1, s1, row, Width(f0, s0, f1, s1))
    ensures c0 == c1 == NEWLINE && p0 <= |f0| && p1 <= |f1|
    ensures NextRow(f0, s0) == (if eof0 then |f0| + 1 else p0) && NextRow(f1, s1) == (if eof1 then |f1| + 1 else p1)
  {
    c0, c1, eof0, eof1, p0, p1 := a0, a1, e0, e1, q0, q1;
    cells := [];
    var col: nat := 0;
    while true
      invariant InRow(f0, s0, col, c0, eof0, p0) && InRow(f1, s1, col, c1, eof1, p1)
      invariant col <= Width(f0, s0, f1, s1) && cells == RowCells(f0, s0, f1, s1, row, col)
      decreases Width(f0, s0, f1, s1) + 1 - col
    {
      c0, eof0, p0 := Advance(f0, s0, col, c0, eof0, p0);
      c1, eof1, p1 := Advance(f1, s1, col, c1, eof1, p1);
      if c0 == NEWLINE && c1 == NEWLINE { break; }
      cells := TakeColumn(cells, f0, s0, c0, f1, s1, c1, row, col);
      col := col + 1;
    }
  }
}
