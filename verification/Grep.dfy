/** The streaming line search of syscalls/ece391grep.c. */
module Grep {
  import opened Machine

  const BUFFER := 1024
  const COLON: byte := 58

  // ----- what is searched and what is printed

  /** First newline at or after i, or `limit` when there is none before it. */
  function LineEnd(file: seq<byte>, i: nat, limit: nat): (e: nat)
    requires i <= limit <= |file|
    ensures i <= e <= limit && NEWLINE !in file[i..e] && (e < limit ==> file[e] == NEWLINE)
    decreases limit - i
  {
    if i == limit || file[i] == NEWLINE then i else LineEnd(file, i + 1, limit)
  }

  /** The lines from offset i on: newline-terminated, the last one possibly not. */
  function Lines(file: seq<byte>, i: nat): seq<seq<byte>>
    requires i <= |file|
    decreases |file| - i
  {
    if i == |file| then []
    else
      var e := LineEnd(file, i, |file|);
      [file[i..e]] + Lines(file, if e < |file| then e + 1 else e)
  }

  /** End of the piece the buffer can hold: a newline, 1024 bytes on, or the end of the file. */
  function PieceEnd(file: seq<byte>, i: nat): nat
    requires i <= |file|
  {
    LineEnd(file, i, Min(i + BUFFER, |file|))
  }

  /** Where the next piece starts: past the newline when there is one within the buffer. */
  function PieceNext(file: seq<byte>, i: nat): (n: nat)
    requires i < |file|
    ensures i < n <= |file|
  {
    var e := PieceEnd(file, i);
    if e < Min(i + BUFFER, |file|) then e + 1 else e
  }

  /** The lines as the 1024-byte buffer sees them: longer lines are cut. */
  function Pieces(file: seq<byte>, i: nat): seq<seq<byte>>
    requires i <= |file|
    decreases |file| - i
  {
    if i == |file| then [] else [file[i..PieceEnd(file, i)]] + Pieces(file, PieceNext(file, i))
  }

  function Flat(pieces: seq<seq<byte>>): seq<byte> {
    if pieces == [] then [] else pieces[0] + Flat(pieces[1..])
  }

  function WithoutNewlines(s: seq<byte>): seq<byte> {
    if s == [] then [] else (if s[0] == 10 then [] else [s[0]]) + WithoutNewlines(s[1..])
  }

  lemma {:induction false} NewlinesAppend(a: seq<byte>, b: seq<byte>)
    requires 10 !in a
    ensures WithoutNewlines(a + b) == a + WithoutNewlines(b)
    decreases |a|
  {
    if a == [] {
      assert a + b == b;
    } else {
      assert (a + b)[1..] == a[1..] + b;
      NewlinesAppend(a[1..], b);
      assert a == [a[0]] + a[1..];
    }
  }

  lemma FlatCons(piece: seq<byte>, rest: seq<seq<byte>>)
    ensures Flat([piece] + rest) == piece + Flat(rest)
  {
    assert ([piece] + rest)[1..] == rest;
  }

  lemma PieceSpells(file: seq<byte>, i: nat, e: nat, rest: nat)
    requires i <= e <= rest <= |file| && 10 !in file[i..e] && (rest == e || (rest == e + 1 && file[e] == 10))
    ensures WithoutNewlines(file[i..]) == file[i..e] + WithoutNewlines(file[rest..])
  {
    assert file[i..] == file[i..e] + file[e..];
    NewlinesAppend(file[i..e], file[e..]);
    if e < rest { assert file[e..][1..] == file[rest..]; }
  }

  /** Cutting loses nothing but newlines: the pieces together are the file without them. */
  lemma {:induction false} PiecesSpellFile(file: seq<byte>, i: nat)
    requires i <= |file|
    ensures Flat(Pieces(file, i)) == WithoutNewlines(file[i..])
    decreases |file| - i
  {
    if i < |file| {
      var e, rest := PieceEnd(file, i), PieceNext(file, i);
      PiecesSpellFile(file, rest);
      PieceSpells(file, i, e, rest);
      FlatCons(file[i..e], Pieces(file, rest));
    }
  }

  ghost predicate OccursAt(text: seq<byte>, at: nat, s: seq<byte>) {
    at + |s| <= |text| && forall j | 0 <= j < |s| :: text[at + j] == s[j]
  }

  /** The code never finds the empty pattern. */
  ghost predicate Matches(line: seq<byte>, s: seq<byte>) {
    s != [] && exists at: nat :: OccursAt(line, at, s)
  }

  ghost function Matching(lines: seq<seq<byte>>, s: seq<byte>): seq<seq<byte>> {
    if lines == [] then [] else (if Matches(lines[0], s) then [lines[0]] else []) + Matching(lines[1..], s)
  }

  /** The four strings written for one matching line. */
  function Entry(fname: seq<byte>, line: seq<byte>): seq<seq<byte>> {
    [fname, [COLON], line, [NEWLINE]]
  }

  function Report(fname: seq<byte>, lines: seq<seq<byte>>): seq<seq<byte>> {
    if lines == [] then [] else Entry(fname, lines[0]) + Report(fname, lines[1..])
  }

  /** Every line reported is four writes: the file's name, a colon, the line and a newline. */
  lemma {:induction false} ReportAt(fname: seq<byte>, lines: seq<seq<byte>>, i: nat)
    requires i < |lines|
    ensures var r := Report(fname, lines);
      |r| == 4 * |lines| && r[4 * i] == fname && r[4 * i + 1] == [58] && r[4 * i + 2] == lines[i] && r[4 * i + 3] == [10]
    decreases |lines|
  {
    var rest := Report(fname, lines[1..]);
    assert Report(fname, lines) == Entry(fname, lines[0]) + rest;
    if |lines| > 1 { ReportAt(fname, lines[1..], if i == 0 then 0 else i - 1); }
  }

  /** The lines with a newline behind each. */
  function Terminated(lines: seq<seq<byte>>): seq<byte> {
    if lines == [] then [] else lines[0] + [10] + Terminated(lines[1..])
  }

  /** What the last line lacks to be terminated. */
  function Missing(file: seq<byte>, i: nat): seq<byte>
    requires i <= |file|
  {
    if i == |file| || file[|file| - 1] == 10 then [] else [10]
  }

  lemma OneLineSpells(file: seq<byte>, i: nat, e: nat)
    requires i <= e <= |file| && i < |file| && (forall k | i <= k < e :: file[k] != 10) && (e < |file| ==> file[e] == 10)
    ensures var next := if e < |file| then e + 1 else e;
      file[i..e] + [10] + (file[next..] + Missing(file, next)) == file[i..] + Missing(file, i)
  {
    assert file[i..] == file[i..e] + file[e..];
    if e < |file| { assert file[e..] == [10] + file[e + 1..]; }
  }

  /** The lines are the file cut at its newlines: put together again they are the file, its last newline supplied if missing. */
  lemma {:induction false} LinesSpellFile(file: seq<byte>, i: nat)
    requires i <= |file|
    ensures Terminated(Lines(file, i)) == file[i..] + Missing(file, i)
    ensures forall l | l in Lines(file, i) :: 10 !in l
    decreases |file| - i
  {
    if i < |file| {
      var e := LineEnd(file, i, |file|);
      var rest := if e < |file| then e + 1 else e;
      LinesSpellFile(file, rest);
      assert ([file[i..e]] + Lines(file, rest))[1..] == Lines(file, rest);
      assert forall k | i <= k < e :: file[k] == file[i..e][k - i];
      OneLineSpells(file, i, e);
    }
  }

  /** What remains to be written for the file from offset i on. */
  ghost function Output(fname: seq<byte>, file: seq<byte>, i: nat, s: seq<byte>): seq<seq<byte>>
    requires i <= |file|
  {
    Report(fname, Matching(Pieces(file, i), s))
  }

  lemma OutputStep(fname: seq<byte>, file: seq<byte>, i: nat, s: seq<byte>)
    requires i < |file|
    ensures Output(fname, file, i, s) ==
      (if Matches(file[i..PieceEnd(file, i)], s) then Entry(fname, file[i..PieceEnd(file, i)]) else [])
      + Output(fname, file, PieceNext(file, i), s)
  {
    var piece := file[i..PieceEnd(file, i)];
    var rest := Pieces(file, PieceNext(file, i));
    assert ([piece] + rest)[1..] == rest;
    if Matches(piece, s) {
      assert ([piece] + Matching(rest, s))[1..] == Matching(rest, s);
    } else {
      assert [] + Matching(rest, s) == Matching(rest, s);
    }
  }

  lemma {:induction false} LineEndIs(file: seq<byte>, i: nat, limit: nat, e: nat)
    requires i <= e <= limit <= |file| && (forall k | i <= k < e :: file[k] != NEWLINE)
    requires e == limit || file[e] == NEWLINE
    ensures LineEnd(file, i, limit) == e
    decreases e - i
  {
    if i < e { LineEndIs(file, i + 1, limit, e); }
  }

  // ----- when the pieces are the lines

  ghost predicate ShortLines(file: seq<byte>) {
    forall l | l in Lines(file, 0) :: |l| <= BUFFER
  }

  lemma MatchingCons(x: seq<byte>, rest: seq<seq<byte>>, s: seq<byte>)
    ensures Matching([x] + rest, s) == (if Matches(x, s) then [x] else []) + Matching(rest, s)
  {
    assert ([x] + rest)[1..] == rest;
  }

  /** Where a line's piece ends and the next begins; a line of exactly 1024 bytes leaves an empty piece behind. */
  lemma PieceOfShortLine(file: seq<byte>, i: nat, e: nat, n: nat)
    requires i < |file| && e == LineEnd(file, i, |file|) && e - i <= BUFFER && n == if e < |file| then e + 1 else e
    ensures PieceEnd(file, i) == e
    ensures PieceNext(file, i) == n || (PieceNext(file, i) == e < |file| && PieceEnd(file, e) == e && PieceNext(file, e) == n)
  {
    forall k | i <= k < e ensures file[k] != NEWLINE { assert file[k] == file[i..e][k - i]; }
    LineEndIs(file, i, Min(i + BUFFER, |file|), e);
  }

  /** A line the buffer can hold is one piece, or one piece and an empty rest. */
  lemma {:induction false} PiecesAreLines(file: seq<byte>, i: nat, s: seq<byte>)
    requires i <= |file| && s != [] && forall l | l in Lines(file, i) :: |l| <= BUFFER
    ensures Matching(Pieces(file, i), s) == Matching(Lines(file, i), s)
    decreases |file| - i
  {
    if i < |file| {
      var e := LineEnd(file, i, |file|);
      var n := if e < |file| then e + 1 else e;
      var rest := Lines(file, n);
      assert Lines(file, i) == [file[i..e]] + rest;
      assert file[i..e] in Lines(file, i);
      assert forall l | l in rest :: l in Lines(file, i);
      PiecesAreLines(file, n, s);
      PieceOfShortLine(file, i, e, n);
      MatchingCons(file[i..e], rest, s);
      MatchingCons(file[i..e], Pieces(file, PieceNext(file, i)), s);
      if PieceNext(file, i) != n { EmptyPieceSkipped(file, e, n, s); }
    }
  }

  lemma EmptyPieceSkipped(file: seq<byte>, e: nat, n: nat, s: seq<byte>)
    requires e < |file| && PieceEnd(file, e) == e && PieceNext(file, e) == n && s != []
    ensures Matching(Pieces(file, e), s) == Matching(Pieces(file, n), s)
  {
    MatchingCons(file[e..e], Pieces(file, n), s);
    assert !Matches(file[e..e], s);
    assert [] + Matching(Pieces(file, n), s) == Matching(Pieces(file, n), s);
  }

  lemma {:induction false} MatchingMembers(lines: seq<seq<byte>>, s: seq<byte>, l: seq<byte>)
    ensures l in Matching(lines, s) <==> l in lines && Matches(l, s)
  {
    if lines != [] {
      assert l in lines <==> l == lines[0] || l in lines[1..];
      MatchingMembers(lines[1..], s, l);
    }
  }

  lemma {:induction false} PiecesFit(file: seq<byte>, i: nat, l: seq<byte>)
    requires i <= |file| && l in Pieces(file, i)
    ensures |l| <= BUFFER
    decreases |file| - i
  {
    if l != file[i..PieceEnd(file, i)] { PiecesFit(file, PieceNext(file, i), l); }
  }

  lemma {:induction false} LinesAreText(file: seq<byte>, i: nat, l: seq<byte>)
    requires i <= |file| && IsText(file) && l in Lines(file, i)
    ensures IsText(l) && NEWLINE !in l
    decreases |file| - i
  {
    var e := LineEnd(file, i, |file|);
    if l != file[i..e] { LinesAreText(file, if e < |file| then e + 1 else e, l); }
  }

  /** A pattern the program can be started with: the kernel keeps 127 bytes of arguments, of one command line. */
  predicate IsPattern(s: seq<byte>) {
    1 <= |s| <= 127 && IsText(s) && NEWLINE !in s
  }

  /** The program searches lines, for every pattern it can be given, exactly when no line is longer than the buffer. */
  lemma GrepSearchesLinesIff(file: seq<byte>)
    requires IsText(file)
    ensures ShortLines(file) <==>
      forall s | IsPattern(s) :: Matching(Pieces(file, 0), s) == Matching(Lines(file, 0), s)
  {
    if ShortLines(file) {
      forall s | IsPattern(s) ensures Matching(Pieces(file, 0), s) == Matching(Lines(file, 0), s) {
        PiecesAreLines(file, 0, s);
      }
    } else {
      var l :| l in Lines(file, 0) && |l| > BUFFER;
      LongLineIsMissed(file, l);
    }
  }

  /** A line longer than the buffer is not printed for its own first byte, which it contains. */
  lemma LongLineIsMissed(file: seq<byte>, l: seq<byte>)
    requires IsText(file) && l in Lines(file, 0) && |l| > BUFFER
    ensures var s := [l[0]];
      IsPattern(s) && l in Matching(Lines(file, 0), s) && l !in Matching(Pieces(file, 0), s)
  {
    var s := [l[0]];
    LinesAreText(file, 0, l);
    assert OccursAt(l, 0, s);
    MatchingMembers(Lines(file, 0), s, l);
    MatchingMembers(Pieces(file, 0), s, l);
    if l in Pieces(file, 0) { PiecesFit(file, 0, l); }
  }

  // ----- comparing and copying C strings inside the buffer

  /** ece391_strncmp(data + at, s, |s|) == 0, where `end` holds the NUL that ends the line. */
  method SameBytes(data: array<byte>, at: nat, end: nat, s: seq<byte>) returns (same: bool)
    requires at < end < data.Length && data[end] == NUL && IsText(s)
    ensures same <==> OccursAt(data[..end], at, s)
  {
    if |s| == 0 { return true; }
    var i := 0;
    while data[at + i] == s[i]
      invariant 0 <= i < |s| && at + i <= end
      invariant forall j | 0 <= j < i :: data[at + j] == s[j]
      decreases |s| - i
    {
      if i + 1 == |s| { return true; }
      i := i + 1;
    }
    return false;
  }

  lemma OccursShifted(text: seq<byte>, start: nat, at: nat, s: seq<byte>)
    requires start <= |text|
    ensures OccursAt(text, start + at, s) <==> OccursAt(text[start..], at, s)
  {
    var rest := text[start..];
    if OccursAt(rest, at, s) {
      forall j | 0 <= j < |s| ensures text[start + at + j] == s[j] { assert rest[at + j] == s[j]; }
    }
    if OccursAt(text, start + at, s) {
      forall j | 0 <= j < |s| ensures rest[at + j] == s[j] { assert text[start + at + j] == s[j]; }
    }
  }

  /** The search of one line. */
  method SearchLine(data: array<byte>, start: nat, end: nat, s: seq<byte>) returns (found: bool)
    requires start <= end < data.Length && data[end] == NUL && IsText(s) && forall k | start <= k < end :: data[k] != NUL
    ensures found <==> Matches(data[start..end], s)
  {
    ghost var line := data[start..end];
    var check := start;
    while check < end
      invariant start <= check <= end
      invariant s != [] ==> forall at: nat | at < check - start :: !OccursAt(line, at, s)
    {
      if (if |s| == 0 then NUL else s[0]) == data[check] {
        assert data[check] == line[check - start];
        var same := SameBytes(data, check, end, s);
        assert data[..end][start..] == line;
        OccursShifted(data[..end], start, check - start, s);
        if same { return true; }
      } else if s != [] {
        assert line[check - start] != s[0];
        assert !OccursAt(line, check - start, s);
      }
      check := check + 1;
    }
    return false;
  }

  /** The string a write of `data + start` prints. */
  method StringAt(data: array<byte>, start: nat, ghost end: nat) returns (line: seq<byte>)
    requires start <= end < data.Length && data[end] == NUL && forall k | start <= k < end :: data[k] != NUL
    ensures line == data[start..end]
  {
    var i := start;
    while data[i] != NUL
      invariant start <= i <= end
      decreases end - i
    {
      i := i + 1;
    }
    return data[start..i];
  }

  /** ece391_strcpy(data, data + start): moves the partial line to the front of its own buffer. */
  method CarryDown(data: array<byte>, start: nat, end: nat)
    requires 0 < start <= end < data.Length && data[end] == NUL && forall k | start <= k < end :: data[k] != NUL
    modifies data
    ensures forall k | 0 <= k < end - start :: data[k] == old(data[start + k])
    ensures forall k | end - start < k < data.Length :: data[k] == old(data[k])
    ensures data[end - start] == NUL
  {
    var i := 0;
    while data[start + i] != NUL
      invariant 0 <= i <= end - start
      invariant forall k | 0 <= k < i :: data[k] == old(data[start + k])
      invariant forall k | i <= k < data.Length :: data[k] == old(data[k])
      decreases end - start - i
    {
      data[i] := data[start + i];
      i := i + 1;
    }
    data[i] := NUL;
  }

  // ----- the two loops

  /** data[from..to] is a run of the file; data[0] would hold the byte at `base`. */
  ghost predicate Holds(data: seq<byte>, from: nat, to: nat, file: seq<byte>, base: nat) {
    to <= |data| && base + to <= |file| && forall k | from <= k < to :: data[k] == file[base + k]
  }

  /** One line of the inner loop: search data[start..end], print it when it matches. */
  method OneLine(data: array<byte>, start: nat, end: nat, fname: seq<byte>, s: seq<byte>, ghost file: seq<byte>, ghost base: nat)
    returns (out: seq<seq<byte>>)
    requires start <= end < data.Length && Holds(data[..], start, end, file, base) && IsText(file) && IsText(s)
    modifies data
    ensures data[..] == old(data[..])[end := NUL]
    ensures out == if Matches(file[base + start..base + end], s) then Entry(fname, file[base + start..base + end]) else []
  {
    data[end] := NUL;
    forall k | start <= k < end ensures data[k] != NUL { assert old(data[..])[k] == file[base + k]; }
    assert data[start..end] == file[base + start..base + end];
    var found := SearchLine(data, start, end, s);
    if found {
      var line := StringAt(data, start, end);
      return [fname, [COLON], line, [NEWLINE]];
    }
    return [];
  }

  /** The scan for the end of a line. */
  method FindEnd(data: array<byte>, start: nat, total: nat, ghost file: seq<byte>, ghost base: nat) returns (end: nat)
    requires start <= total < data.Length && Holds(data[..], start, total, file, base)
    ensures start <= end <= total && (end < total ==> data[end] == NEWLINE == file[base + end])
    ensures forall k | base + start <= k < base + end :: file[k] != NEWLINE
  {
    end := start;
    while end < total && data[end] != NEWLINE
      invariant start <= end <= total && forall k | base + start <= k < base + end :: file[k] != NEWLINE
    {
      assert data[..][end] == file[base + end];
      end := end + 1;
    }
    assert end < total ==> data[..][end] == file[base + end];
  }

  /** The partial line at the end of the buffer moves to its front. */
  method Carry(data: array<byte>, start: nat, end: nat, ghost file: seq<byte>, ghost base: nat) returns (last: nat)
    requires 0 < start <= end < data.Length && Holds(data[..], start, end, file, base) && IsText(file)
    modifies data
    ensures last == end - start && Holds(data[..], 0, last, file, base + start)
    ensures forall k | end < k < data.Length :: data[k] == old(data[k])
    ensures data[end] == NUL
  {
    data[end] := NUL;
    forall k | start <= k < end ensures data[k] != NUL { assert old(data[..])[k] == file[base + k]; }
    CarryDown(data, start, end);
    last := end - start;
    forall k | 0 <= k < last ensures data[..][k] == file[base + start + k] {
      assert old(data[..])[start + k] == file[base + (start + k)];
    }
  }

  /** The inner loop: all lines of the buffer, leaving a partial last one at its front. */
  method ScanBuffer(data: array<byte>, total: nat, cnt: nat, fname: seq<byte>, s: seq<byte>, printed: seq<seq<byte>>,
                    ghost file: seq<byte>, ghost base: nat, ghost all: seq<seq<byte>>)
    returns (out: seq<seq<byte>>, last: nat)
    requires Accounted(fname, file, base, s, printed, all)
    requires data.Length == 1025 && total <= 1024 && data[1024] != NEWLINE && IsText(file) && IsText(s)
    requires Holds(data[..], 0, total, file, base) && (total == 1024 || base + total == |file|)
    requires cnt == 0 ==> total < 1024
    modifies data
    ensures data[1024] != NEWLINE && last < 1024 && last <= base + total
    ensures Holds(data[..], 0, last, file, base + total - last)
    ensures cnt == 0 ==> last == 0
    ensures Accounted(fname, file, base + total - last, s, out, all)
  {
    out, last := printed, total;
    var start := 0;
    while true
      invariant start < total || total == 0 == start
      invariant data[1024] != NEWLINE && Holds(data[..], start, total, file, base)
      invariant Accounted(fname, file, base + start, s, out, all)
      decreases total - start
    {
      var end := FindEnd(data, start, total, file, base);
      if data[end] != NEWLINE && 0 != cnt && start != 0 {
        last := Carry(data, start, end, file, base);
        assert base + total - last == base + start;
        return;
      }
      out := TakeLine(data, start, end, total, fname, s, out, file, base, all);
      start := end + 1;
      if start >= total {
        last := 0;
        assert base + total - last == if end < total then base + end + 1 else base + end;
        return;
      }
    }
  }

  lemma HoldsBehind(now: seq<byte>, was: seq<byte>, start: nat, end: nat, total: nat, file: seq<byte>, base: nat)
    requires start <= end < |was| && now == was[end := NUL] && Holds(was, start, total, file, base)
    ensures Holds(now, end + 1, total, file, base)
  {
  }

  /** One line is searched, printed when it matches, and no longer owed. */
  method TakeLine(data: array<byte>, start: nat, end: nat, total: nat, fname: seq<byte>, s: seq<byte>, printed: seq<seq<byte>>,
                  ghost file: seq<byte>, ghost base: nat, ghost all: seq<seq<byte>>)
    returns (out: seq<seq<byte>>)
    requires data.Length == 1025 && data[1024] != NEWLINE && IsText(file) && IsText(s)
    requires start <= end <= total <= 1024 && (start < total || total == 0) && Holds(data[..], start, total, file, base)
    requires forall k | base + start <= k < base + end :: file[k] != NEWLINE
    requires if end < total then file[base + end] == NEWLINE else base + total == |file| || (start == 0 && total == 1024)
    requires Accounted(fname, file, base + start, s, printed, all)
    modifies data
    ensures data[1024] != NEWLINE && Holds(data[..], end + 1, total, file, base)
    ensures Accounted(fname, file, if end < total then base + end + 1 else base + end, s, out, all)
  {
    ghost var was := data[..];
    var entry := OneLine(data, start, end, fname, s, file, base);
    LineAccounted(fname, file, base, start, end, total, s, printed, entry, all);
    HoldsBehind(data[..], was, start, end, total, file, base);
    out := printed + entry;
  }

  /** What has been written so far, and what the file from i on still owes, are all of the output. */
  ghost predicate Accounted(fname: seq<byte>, file: seq<byte>, i: nat, s: seq<byte>, out: seq<seq<byte>>, all: seq<seq<byte>>) {
    i <= |file| && out + Output(fname, file, i, s) == all
  }

  lemma LineAccounted(fname: seq<byte>, file: seq<byte>, base: nat, start: nat, end: nat, total: nat, s: seq<byte>,
                      out: seq<seq<byte>>, printed: seq<seq<byte>>, all: seq<seq<byte>>)
    requires start <= end <= total <= 1024 && (start < total || total == 0) && base + total <= |file|
    requires forall k | base + start <= k < base + end :: file[k] != NEWLINE
    requires if end < total then file[base + end] == NEWLINE else base + total == |file| || (start == 0 && total == 1024)
    requires printed == if Matches(file[base + start..base + end], s) then Entry(fname, file[base + start..base + end]) else []
    requires Accounted(fname, file, base + start, s, out, all)
    ensures Accounted(fname, file, if end < total then base + end + 1 else base + end, s, out + printed, all)
  {
    if start < total {
      PieceIs(file, base, start, end, total);
      PieceAccounted(fname, file, base + start, s, out, all);
    } else {
      assert file[base + start..base + end] == [];
      assert printed == [] && out + printed == out;
    }
  }

  lemma PieceAccounted(fname: seq<byte>, file: seq<byte>, i: nat, s: seq<byte>, out: seq<seq<byte>>, all: seq<seq<byte>>)
    requires i < |file| && Accounted(fname, file, i, s, out, all)
    ensures i <= PieceEnd(file, i) <= |file|
    ensures var l := file[i..PieceEnd(file, i)];
      Accounted(fname, file, PieceNext(file, i), s, out + (if Matches(l, s) then Entry(fname, l) else []), all)
  {
    OutputStep(fname, file, i, s);
    var l := file[i..PieceEnd(file, i)];
    Associative(out, if Matches(l, s) then Entry(fname, l) else [], Output(fname, file, PieceNext(file, i), s));
  }

  lemma Associative(a: seq<seq<byte>>, b: seq<seq<byte>>, c: seq<seq<byte>>)
    ensures a + (b + c) == (a + b) + c
  {
  }

  /** The buffer's line is the file's next piece. */
  lemma PieceIs(file: seq<byte>, base: nat, start: nat, end: nat, total: nat)
    requires start <= end <= total <= 1024 && start < total && base + total <= |file|
    requires forall k | base + start <= k < base + end :: file[k] != NEWLINE
    requires if end < total then file[base + end] == NEWLINE else base + total == |file| || (start == 0 && total == 1024)
    ensures PieceEnd(file, base + start) == base + end
    ensures PieceNext(file, base + start) == if end < total then base + end + 1 else base + end
  {
    LineEndIs(file, base + start, Min(base + start + BUFFER, |file|), base + end);
  }

  /** What the program is for: every line that contains the pattern, once and in order. */
  ghost function LineSearch(fname: seq<byte>, file: seq<byte>, s: seq<byte>): seq<seq<byte>> {
    Report(fname, Matching(Lines(file, 0), s))
  }

  lemma OutputIsLineSearch(fname: seq<byte>, file: seq<byte>, s: seq<byte>)
    ensures ShortLines(file) && s != [] ==> Output(fname, file, 0, s) == LineSearch(fname, file, s)
  {
    if ShortLines(file) && s != [] { PiecesAreLines(file, 0, s); }
  }

  /** do_one_file once the file is open; `data` arrives with unknown contents. */
  method DoOneFile(s: seq<byte>, fname: seq<byte>, file: seq<byte>, data: array<byte>) returns (out: seq<seq<byte>>)
    requires data.Length == 1025 && data[1024] != NEWLINE && IsText(file) && IsText(s)
    modifies data
    ensures out == Output(fname, file, 0, s)
    ensures ShortLines(file) && s != [] ==> out == LineSearch(fname, file, s)
  {
    OutputIsLineSearch(fname, file, s);
    out := [];
    var last: nat, pos: nat := 0, 0;
    while true
      invariant last < 1024 && last <= pos <= |file| && data[1024] != NEWLINE
      invariant Holds(data[..], 0, last, file, pos - last)
      invariant Accounted(fname, file, pos - last, s, out, Output(fname, file, 0, s))
      decreases |file| - pos
    {
      var cnt := Min(BUFFER - last, |file| - pos);
      Fill(data, last, file, pos, cnt);
      last := last + cnt;
      pos := pos + cnt;
      ghost var base := pos - last;
      out, last := ScanBuffer(data, last, cnt, fname, s, out, file, base, Output(fname, file, 0, s));
      if cnt == 0 {
        assert Output(fname, file, |file|, s) == [];
        return;
      }
    }
  }

  /** The read into the free part of the buffer. */
  method Fill(data: array<byte>, last: nat, file: seq<byte>, pos: nat, cnt: nat)
    requires last <= pos && last + cnt <= data.Length - 1 && pos + cnt <= |file| && Holds(data[..], 0, last, file, pos - last)
    modifies data
    ensures Holds(data[..], 0, last + cnt, file, pos - last) && data[data.Length - 1] == old(data[data.Length - 1])
  {
    forall k | last <= k < last + cnt { data[k] := file[pos - last + k]; }
  }
}
