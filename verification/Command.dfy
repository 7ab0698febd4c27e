/** Command lines taken apart in place and put together again: syscalls/ece391emulate.c. */
module Command {
  import opened Machine

  predicate IsDelimiter(c: byte) {
    c == SPACE || c == NEWLINE
  }

  function SkipSpaces(s: seq<byte>, i: nat): (j: nat)
    requires i <= |s|
    ensures i <= j <= |s| && (j < |s| ==> s[j] != SPACE)
    decreases |s| - i
  {
    if i < |s| && s[i] == SPACE then SkipSpaces(s, i + 1) else i
  }

  function WordEnd(s: seq<byte>, i: nat): (e: nat)
    requires i <= |s|
    ensures i <= e <= |s| && (e < |s| ==> IsDelimiter(s[e]))
    ensures i < |s| && !IsDelimiter(s[i]) ==> e > i
    decreases |s| - i
  {
    if i == |s| || IsDelimiter(s[i]) then i else WordEnd(s, i + 1)
  }

  lemma {:induction false} InsideWord(s: seq<byte>, i: nat, k: nat)
    requires i <= |s| && i <= k < WordEnd(s, i)
    ensures !IsDelimiter(s[k])
    decreases k - i
  {
    if k > i { InsideWord(s, i + 1, k); }
  }

  /** Is there another argument at or after i? A newline where a word could start ends the command. */
  predicate HasArg(s: seq<byte>, i: nat)
    requires i <= |s|
  {
    var j := SkipSpaces(s, i);
    j < |s| && s[j] != NEWLINE
  }

  function ArgAt(s: seq<byte>, i: nat): seq<byte>
    requires i <= |s|
  {
    var j := SkipSpaces(s, i);
    s[j..WordEnd(s, j)]
  }

  /** Where scanning goes on after the argument found from i. */
  function After(s: seq<byte>, i: nat): (n: nat)
    requires i <= |s|
    ensures n <= |s|
    ensures HasArg(s, i) ==> n > i
  {
    var e := WordEnd(s, SkipSpaces(s, i));
    if e < |s| then e + 1 else e
  }

  /** The arguments from scan position i on. */
  function Args(s: seq<byte>, i: nat): seq<seq<byte>>
    requires i <= |s|
    decreases |s| - i
  {
    if HasArg(s, i) then [ArgAt(s, i)] + Args(s, After(s, i)) else []
  }

  const DOT_SLASH: seq<byte> := [46, 47]

  /** Where the arguments of a command start. */
  function ArgsStart(s: seq<byte>): (i: nat)
    ensures i <= |s|
  {
    var e := WordEnd(s, 0);
    if e < |s| then e + 1 else e
  }

  /** The argument vector of a command: its first word below the current directory, then its arguments. */
  function Tokens(s: seq<byte>): seq<seq<byte>> {
    [DOT_SLASH + s[..WordEnd(s, 0)]] + Args(s, ArgsStart(s))
  }

  /** What ece391_execute makes of a command, unless it is too long. */
  function Split(s: seq<byte>): Option<seq<seq<byte>>> {
    if |s| > 1023 then None else Some(Tokens(s))
  }

  // ----- the scan position after k arguments

  function Position(s: seq<byte>, i: nat, k: nat): (n: nat)
    requires i <= |s|
    ensures n <= |s|
  {
    if k == 0 then i else After(s, Position(s, i, k - 1))
  }

  lemma {:induction false} ArgsFrom(s: seq<byte>, i: nat, k: nat)
    requires i <= |s| && forall j | 0 <= j < k :: HasArg(s, Position(s, i, j))
    ensures k <= |Args(s, i)| && Args(s, i)[k..] == Args(s, Position(s, i, k))
    decreases k
  {
    if k > 0 {
      ArgsFrom(s, i, k - 1);
      var p := Position(s, i, k - 1);
      assert HasArg(s, p);
      var rest := Args(s, p);
      assert rest[1..] == Args(s, After(s, p));
      assert Args(s, i)[k..] == rest[1..];
    }
  }

  /** Argument k is the one found from scan position k. */
  lemma ArgsByPosition(s: seq<byte>, i: nat, k: nat)
    requires i <= |s| && forall j | 0 <= j < k :: HasArg(s, Position(s, i, j))
    ensures k <= |Args(s, i)|
    ensures HasArg(s, Position(s, i, k)) <==> k < |Args(s, i)|
    ensures k < |Args(s, i)| ==> Args(s, i)[k] == ArgAt(s, Position(s, i, k))
  {
    ArgsFrom(s, i, k);
    if k < |Args(s, i)| { assert Args(s, i)[k] == Args(s, i)[k..][0]; }
  }

  // ----- the tokenizer

  /** buf holds the C string `word` at p. */
  ghost predicate StringAt(buf: seq<byte>, p: int, word: seq<byte>) {
    && 0 <= p && p + |word| < |buf| && buf[p + |word|] == NUL
    && forall i | p <= i < p + |word| :: buf[i] == word[i - p]
  }

  /** The command behind the prefix, untouched from scan position i on. */
  ghost predicate Unscanned(buf: seq<byte>, s: seq<byte>, i: nat) {
    |s| <= 1023 && |buf| == 1026 && buf[2 + |s|] == NUL && forall k | 2 + i <= k < 2 + |s| :: buf[k] == s[k - 2]
  }

  /** while (' ' == *scan) scan++; */
  method SkipLoop(buf: array<byte>, scan: nat, ghost s: seq<byte>) returns (end: nat)
    requires 2 <= scan <= 2 + |s| && Unscanned(buf[..], s, scan - 2) && IsText(s)
    ensures end == 2 + SkipSpaces(s, scan - 2)
  {
    end := scan;
    while buf[end] == SPACE
      invariant scan <= end <= 2 + |s| && SkipSpaces(s, scan - 2) == SkipSpaces(s, end - 2)
      decreases 2 + |s| - end
    {
      assert buf[..][end] == buf[end];
      end := end + 1;
    }
    assert end < 2 + |s| ==> buf[..][end] == s[end - 2];
  }

  /** while ('\0' != *scan && ' ' != *scan && '\n' != *scan) scan++; */
  method WordLoop(buf: array<byte>, scan: nat, ghost s: seq<byte>) returns (end: nat)
    requires 2 <= scan <= 2 + |s| && Unscanned(buf[..], s, scan - 2) && IsText(s)
    ensures end == 2 + WordEnd(s, scan - 2)
  {
    end := scan;
    while buf[end] != NUL && !IsDelimiter(buf[end])
      invariant scan <= end <= 2 + |s| && WordEnd(s, scan - 2) == WordEnd(s, end - 2)
      decreases 2 + |s| - end
    {
      assert buf[..][end] == buf[end];
      end := end + 1;
    }
    assert end < 2 + |s| ==> buf[..][end] == s[end - 2];
  }

  /** The copy of the command behind "./". */
  method Prefix(s: seq<byte>, buf: array<byte>)
    requires buf.Length == 1026 && |s| <= 1023
    modifies buf
    ensures buf[0] == 46 && buf[1] == 47 && Unscanned(buf[..], s, 0)
  {
    buf[0], buf[1] := 46, 47;
    forall k | 2 <= k < 2 + |s| { buf[k] := s[k - 2]; }
    buf[2 + |s|] := NUL;
  }

  /** Ends the word at `end` with a NUL; the cursor moves on unless the command ends there. */
  method Terminate(buf: array<byte>, end: nat, ghost s: seq<byte>) returns (scan: nat)
    requires 2 <= end <= 2 + |s| && Unscanned(buf[..], s, end - 2) && IsText(s)
    modifies buf
    ensures scan == (if end < 2 + |s| then end + 1 else end) && Unscanned(buf[..], s, scan - 2) && buf[end] == NUL
    ensures forall k | 0 <= k < 1026 && k != end :: buf[k] == old(buf[k])
  {
    scan := end;
    assert end < 2 + |s| ==> buf[..][end] == s[end - 2];
    if buf[scan] != NUL {
      buf[scan] := NUL;
      scan := scan + 1;
    }
  }

  /** The argument pointers found so far, and the strings they point to. */
  ghost predicate Found(buf: seq<byte>, args: seq<int>, n: nat, s: seq<byte>, scan: nat) {
    && |args| == 1024 && 1 <= n <= 1024 && |buf| == 1026 && args[0] == 0
    && buf[0] == 46 && buf[1] == 47 && StringAt(buf, 2, s[..WordEnd(s, 0)])
    && 2 + WordEnd(s, 0) <= scan
    && forall k | 1 <= k < n :: FoundAt(buf, args[k], s, Position(s, ArgsStart(s), k - 1), scan)
  }

  /** Pointer p leads to the argument found from position i, which ends before `scan` or at the end of the command. */
  ghost predicate FoundAt(buf: seq<byte>, p: int, s: seq<byte>, i: nat, scan: nat) {
    && i <= |s| && HasArg(s, i) && p == 2 + SkipSpaces(s, i)
    && StringAt(buf, p, ArgAt(s, i)) && p + |ArgAt(s, i)| <= scan
  }

  /** A NUL stored at or behind the scan position disturbs no string found before. */
  lemma FoundKeeps(now: seq<byte>, was: seq<byte>, args: seq<int>, n: nat, s: seq<byte>, scan: nat, end: nat, later: nat)
    requires Found(was, args, n, s, scan) && scan <= end < 1026 && scan <= later
    requires |now| == |was| && now[end] == NUL && forall k | 0 <= k < 1026 && k != end :: now[k] == was[k]
    ensures Found(now, args, n, s, later)
  {
    forall k | 1 <= k < n ensures FoundAt(now, args[k], s, Position(s, ArgsStart(s), k - 1), later) {
      assert FoundAt(was, args[k], s, Position(s, ArgsStart(s), k - 1), scan);
    }
  }

  /** The word just ended is the next argument. */
  lemma FoundNext(buf: seq<byte>, args: seq<int>, n: nat, s: seq<byte>, scan: nat, start: int, later: nat)
    requires Found(buf, args, n, s, scan) && n < 1024 && scan <= later
    requires FoundAt(buf, start, s, Position(s, ArgsStart(s), n - 1), later)
    ensures Found(buf, args[n := start], n + 1, s, later)
  {
    var now := args[n := start];
    forall k | 1 <= k < n + 1 ensures FoundAt(buf, now[k], s, Position(s, ArgsStart(s), k - 1), later) {
      if k < n { assert FoundAt(buf, args[k], s, Position(s, ArgsStart(s), k - 1), scan); }
    }
  }

  lemma FoundHasArgs(buf: seq<byte>, args: seq<int>, n: nat, s: seq<byte>, scan: nat, j: nat)
    requires Found(buf, args, n, s, scan) && j < n - 1
    ensures HasArg(s, Position(s, ArgsStart(s), j))
  {
    assert FoundAt(buf, args[j + 1], s, Position(s, ArgsStart(s), j), scan);
  }

  lemma FoundArg(buf: seq<byte>, args: seq<int>, n: nat, s: seq<byte>, scan: nat, k: nat)
    requires Found(buf, args, n, s, scan) && 1 <= k < n
    ensures k - 1 < |Args(s, ArgsStart(s))| && StringAt(buf, args[k], Args(s, ArgsStart(s))[k - 1])
  {
    var a := ArgsStart(s);
    forall j | 0 <= j < k - 1 ensures HasArg(s, Position(s, a, j)) { FoundHasArgs(buf, args, n, s, scan, j); }
    FoundHasArgs(buf, args, n, s, scan, k - 1);
    ArgsByPosition(s, a, k - 1);
    assert FoundAt(buf, args[k], s, Position(s, a, k - 1), scan);
  }

  lemma FoundCount(buf: seq<byte>, args: seq<int>, n: nat, s: seq<byte>, scan: nat)
    requires Found(buf, args, n, s, scan) && !HasArg(s, Position(s, ArgsStart(s), n - 1))
    ensures |Args(s, ArgsStart(s))| == n - 1
  {
    forall j | 0 <= j < n - 1 ensures HasArg(s, Position(s, ArgsStart(s), j)) { FoundHasArgs(buf, args, n, s, scan, j); }
    ArgsByPosition(s, ArgsStart(s), n - 1);
  }

  lemma FirstArg(buf: seq<byte>, word: seq<byte>)
    requires |buf| == 1026 && buf[0] == 46 && buf[1] == 47 && StringAt(buf, 2, word)
    ensures StringAt(buf, 0, DOT_SLASH + word)
  {
    forall i | 0 <= i < 2 + |word| ensures buf[i] == (DOT_SLASH + word)[i] {}
  }

  /** What the pointers found at the end say about the argument vector. */
  lemma FoundAll(buf: seq<byte>, args: seq<int>, n: nat, s: seq<byte>, scan: nat)
    requires Found(buf, args, n, s, scan) && !HasArg(s, Position(s, ArgsStart(s), n - 1))
    ensures |Tokens(s)| == n && forall k | 0 <= k < n :: StringAt(buf, args[k], Tokens(s)[k])
  {
    FoundCount(buf, args, n, s, scan);
    forall k | 0 <= k < n ensures StringAt(buf, args[k], Tokens(s)[k]) {
      if k > 0 { FoundArg(buf, args, n, s, scan, k); } else { FirstArg(buf, s[..WordEnd(s, 0)]); }
    }
  }

  /** One argument: its pointer is recorded, its end overwritten. */
  method TakeArg(buf: array<byte>, args: array<int>, n: nat, start: nat, ghost s: seq<byte>, ghost before: nat)
    returns (scan: nat)
    requires args.Length == 1024 && 1 <= n < 1023 && IsText(s) && 2 <= before
    requires Found(buf[..], args[..], n, s, before) && before - 2 == Position(s, ArgsStart(s), n - 1)
    requires HasArg(s, before - 2) && start == 2 + SkipSpaces(s, before - 2) && Unscanned(buf[..], s, start - 2)
    modifies buf, args
    ensures Found(buf[..], args[..], n + 1, s, scan) && Unscanned(buf[..], s, scan - 2)
    ensures 2 <= scan && scan - 2 == Position(s, ArgsStart(s), n)
    ensures scan >= before + 2 || (scan == 2 + |s| && scan >= before + 1)
  {
    ghost var was := buf[..];
    var end := WordLoop(buf, start, s);
    scan := Terminate(buf, end, s);
    FoundKeeps(buf[..], was, args[..], n, s, before, end, scan);
    assert FoundAt(buf[..], start, s, before - 2, scan) by {
      forall i | start <= i < end ensures buf[..][i] == s[i - 2] { assert was[i] == s[i - 2]; }
    }
    FoundNext(buf[..], args[..], n, s, scan, start, scan);
    args[n] := start;
  }

  /** The NUL behind the last argument. */
  method EndCommand(buf: array<byte>, scan: nat, ghost args: seq<int>, ghost n: nat, ghost s: seq<byte>, ghost before: nat)
    requires Found(buf[..], args, n, s, before) && before <= scan < buf.Length
    modifies buf
    ensures Found(buf[..], args, n, s, scan)
  {
    ghost var was := buf[..];
    buf[scan] := NUL;
    FoundKeeps(buf[..], was, args, n, s, before, scan, scan);
  }

  /** The inner loop: words are taken until the command ends or a newline stands where one could start. */
  method TakeArgs(buf: array<byte>, args: array<int>, from: nat, ghost s: seq<byte>) returns (n: nat, scan: nat)
    requires args.Length == 1024 && |s| <= 1023 && IsText(s) && 2 <= from
    requires Found(buf[..], args[..], 1, s, from) && Unscanned(buf[..], s, from - 2) && from - 2 == ArgsStart(s) > 0
    modifies buf, args
    ensures 1 <= n <= 512 && Found(buf[..], args[..], n, s, scan) && !HasArg(s, Position(s, ArgsStart(s), n - 1))
  {
    n, scan := 1, from;
    while true
      invariant 1 <= n && 2 <= scan && Found(buf[..], args[..], n, s, scan) && Unscanned(buf[..], s, scan - 2)
      invariant scan - 2 == Position(s, ArgsStart(s), n - 1)
      invariant 2 * n - 1 <= scan - 2 + (if scan == 2 + |s| then 1 else 0)
      decreases 2 + |s| - scan
    {
      ghost var before := scan;
      scan := SkipLoop(buf, scan, s);
      assert scan < 2 + |s| ==> buf[..][scan] == s[scan - 2];
      if buf[scan] == NUL || buf[scan] == NEWLINE {
        EndCommand(buf, scan, args[..], n, s, before);
        break;
      }
      scan := TakeArg(buf, args, n, scan, s, before);
      n := n + 1;
    }
  }

  /** The tokenizer of ece391_execute: strings cut in place, pointers in args, a final null pointer. */
  method Tokenize(s: seq<byte>, buf: array<byte>, args: array<int>) returns (n: int)
    requires buf.Length == 1026 && args.Length == 1024 && IsText(s)
    modifies buf, args
    ensures match Split(s)
            case None => n == -1 && buf[..] == old(buf[..]) && args[..] == old(args[..])
            case Some(words) => n == |words| <= 512 && args[n] == -1
                                && forall k | 0 <= k < n :: StringAt(buf[..], args[k], words[k])
  {
    if 1023 < |s| { return -1; }
    Prefix(s, buf);
    args[0] := 0;
    n := 1;
    ghost var was := buf[..];
    var scan := WordLoop(buf, 2, s);
    var more := buf[scan] != NUL;
    assert scan < 2 + |s| ==> was[scan] == s[scan - 2];
    scan := Terminate(buf, scan, s);
    FirstFound(was, buf[..], args[..], s, scan);
    if more { n, scan := TakeArgs(buf, args, scan, s); }
    FoundAll(buf[..], args[..], n, s, scan);
    args[n] := -1;
  }

  lemma FirstFound(was: seq<byte>, now: seq<byte>, args: seq<int>, s: seq<byte>, scan: nat)
    requires |args| == 1024 && args[0] == 0 && |was| == |now| == 1026 && was[0] == 46 && was[1] == 47 && Unscanned(was, s, 0)
    requires var e := 2 + WordEnd(s, 0);
      now[e] == NUL && (forall k | 0 <= k < 1026 && k != e :: now[k] == was[k]) && scan == if e < 2 + |s| then e + 1 else e
    ensures Found(now, args, 1, s, scan) && scan - 2 == ArgsStart(s)
  {
    forall i | 2 <= i < 2 + WordEnd(s, 0) ensures now[i] == s[..WordEnd(s, 0)][i - 2] { assert was[i] == s[i - 2]; }
  }

  // ----- the joiner

  /** The first n words with single spaces between them. */
  function JoinFirst(words: seq<seq<byte>>, n: nat): seq<byte>
    requires n <= |words|
  {
    if n == 0 then [] else if n == 1 then words[0] else JoinFirst(words, n - 1) + [SPACE] + words[n - 1]
  }

  function Join(words: seq<seq<byte>>): seq<byte> {
    JoinFirst(words, |words|)
  }

  lemma {:induction false} JoinGrows(words: seq<seq<byte>>, n: nat, m: nat)
    requires n <= m <= |words|
    ensures |JoinFirst(words, n)| <= |JoinFirst(words, m)|
    ensures 1 <= n < m ==> |JoinFirst(words, n)| < |JoinFirst(words, m)|
    decreases m - n
  {
    if n < m { JoinGrows(words, n, m - 1); }
  }

  /** ece391_strcpy into the caller's buffer. */
  method StrCpy(buf: array<byte>, at: nat, word: seq<byte>)
    requires at + |word| < buf.Length
    modifies buf
    ensures buf[..at + |word|] == old(buf[..at]) + word
  {
    forall k | at <= k < at + |word| { buf[k] := word[k - at]; }
    buf[at + |word|] := NUL;
    assert buf[..at] == old(buf[..at]) && buf[at..at + |word|] == word;
  }

  /** ece391_getargs: succeeds exactly when the joined arguments and their terminator fit. */
  method GetArgs(argv: seq<seq<byte>>, buf: array<byte>, size: int) returns (r: int)
    requires 0 < buf.Length && size < buf.Length
    modifies buf
    ensures var words := if |argv| > 1 then argv[1..] else [];
      r == (if |Join(words)| + 1 <= size then 0 else -1)
      && (r == 0 ==> buf[..|Join(words)|] == Join(words) && buf[|Join(words)|] == NUL)
  {
    ghost var words := if |argv| > 1 then argv[1..] else [];
    var idx, at, nbytes := 1, 0, size;
    while idx < |argv|
      invariant 1 <= idx && at + nbytes == size && 0 <= at && (at > 0 ==> nbytes >= 0) && idx - 1 <= |words|
      invariant idx < |argv| || idx == 1 >= |argv|
      invariant at < buf.Length
      invariant buf[..at] == if idx == 1 then [] else JoinFirst(words, idx - 1) + [SPACE]
      decreases |argv| - idx
    {
      var len := |argv[idx]|;
      if len > nbytes {
        JoinGrows(words, idx, |words|);
        return -1;
      }
      ghost var before := buf[..at];
      StrCpy(buf, at, argv[idx]);
      assert before + argv[idx] == JoinFirst(words, idx);
      at, nbytes := at + len, nbytes - len;
      idx := idx + 1;
      if idx >= |argv| { break; }
      if nbytes < 1 {
        JoinGrows(words, idx - 1, |words|);
        return -1;
      }
      buf[at] := SPACE;
      at, nbytes := at + 1, nbytes - 1;
    }
    assert buf[..at] == Join(words);
    if nbytes < 1 { return -1; }
    buf[at] := NUL;
    assert buf[..at] == Join(words);
    return 0;
  }

  // ----- the two undo each other

  ghost predicate NoDelimiter(w: seq<byte>) {
    forall i | 0 <= i < |w| :: w[i] != 32 && w[i] != 10
  }

  /** An argument that survives splitting: not empty, no delimiter. */
  ghost predicate IsWord(w: seq<byte>) {
    w != [] && NoDelimiter(w)
  }

  /** A program name, possibly empty, and arguments that survive splitting. */
  ghost predicate Splittable(words: seq<seq<byte>>) {
    words != [] && NoDelimiter(words[0]) && forall n | 1 <= n < |words| :: IsWord(words[n])
  }

  lemma {:induction false} WordEndIs(s: seq<byte>, i: nat, e: nat)
    requires i <= e <= |s| && (forall k | i <= k < e :: !IsDelimiter(s[k])) && (e < |s| ==> IsDelimiter(s[e]))
    ensures WordEnd(s, i) == e
    decreases e - i
  {
    if i < e { WordEndIs(s, i + 1, e); }
  }

  /** From i to its end s holds the words, each behind a space. */
  ghost predicate Laid(s: seq<byte>, i: nat, words: seq<seq<byte>>)
    decreases |words|
  {
    if words == [] then i == |s| else
      && i + 1 + |words[0]| <= |s| && s[i] == SPACE && HoldsAt(s, i + 1, words[0])
      && Laid(s, i + 1 + |words[0]|, words[1..])
  }

  ghost predicate HoldsAt(s: seq<byte>, p: nat, w: seq<byte>) {
    p + |w| <= |s| && forall k | p <= k < p + |w| :: s[k] == w[k - p]
  }

  lemma {:induction false} JoinHolds(words: seq<seq<byte>>, n: nat, m: nat)
    requires n <= m <= |words|
    ensures HoldsAt(JoinFirst(words, m), 0, JoinFirst(words, n))
    decreases m
  {
    if n < m { JoinHolds(words, n, m - 1); }
  }

  /** In the joined command word n stands behind a space and the words before it. */
  lemma JoinHoldsWord(words: seq<seq<byte>>, n: nat)
    requires 1 <= n < |words|
    ensures var s, at := Join(words), |JoinFirst(words, n)|; at < |s| && s[at] == SPACE && HoldsAt(s, at + 1, words[n])
  {
    var s, before, after := Join(words), JoinFirst(words, n), JoinFirst(words, n + 1);
    JoinHolds(words, n + 1, |words|);
    assert after[|before|] == SPACE && s[|before|] == after[|before|];
    forall k | |before| + 1 <= k < |after| ensures s[k] == words[n][k - |before| - 1] { assert s[k] == after[k]; }
  }

  lemma {:induction false} JoinLays(words: seq<seq<byte>>, n: nat)
    requires 1 <= n <= |words|
    ensures Laid(Join(words), |JoinFirst(words, n)|, words[n..])
    decreases |words| - n
  {
    if n < |words| {
      JoinLays(words, n + 1);
      JoinHoldsWord(words, n);
      assert words[n..][1..] == words[n + 1..];
    }
  }

  lemma WordEndHere(s: seq<byte>, p: nat, w: seq<byte>)
    requires HoldsAt(s, p, w) && NoDelimiter(w) && (p + |w| < |s| ==> IsDelimiter(s[p + |w|]))
    ensures WordEnd(s, p) == p + |w| && s[p..p + |w|] == w && (w != [] ==> p < |s| && !IsDelimiter(s[p]))
  {
    forall k | p <= k < p + |w| ensures !IsDelimiter(s[k]) { assert s[k] == w[k - p]; }
    WordEndIs(s, p, p + |w|);
  }

  /** Scanning behind a word that precedes words laid out finds exactly those words. */
  lemma {:induction false} ArgsOfLaid(s: seq<byte>, i: nat, words: seq<seq<byte>>)
    requires i <= |s| && Laid(s, i, words) && forall n | 0 <= n < |words| :: IsWord(words[n])
    ensures Args(s, if i < |s| then i + 1 else i) == words
    decreases |words|
  {
    if words != [] {
      WordEndHere(s, i + 1, words[0]);
      ArgsOfLaid(s, i + 1 + |words[0]|, words[1..]);
    }
  }

  lemma SplitJoined(words: seq<seq<byte>>)
    requires Splittable(words)
    ensures Tokens(Join(words)) == [DOT_SLASH + words[0]] + words[1..]
  {
    var s, w := Join(words), words[0];
    JoinHolds(words, 1, |words|);
    JoinLays(words, 1);
    assert HoldsAt(s, 0, w);
    WordEndHere(s, 0, w);
    ArgsOfLaid(s, |w|, words[1..]);
  }

  lemma SplitGivesSplittable(words: seq<seq<byte>>)
    requires words != [] && Tokens(Join(words)) == [DOT_SLASH + words[0]] + words[1..]
    ensures Splittable(words)
  {
    var s := Join(words);
    SplitIsSplittable(s);
    assert words[0] == Tokens(s)[0][2..] && Tokens(s)[0][2..] == s[..WordEnd(s, 0)];
    assert words[1..] == Tokens(s)[1..] && Tokens(s)[1..] == Args(s, ArgsStart(s));
    assert words == [words[0]] + words[1..];
  }

  /**
   * Splitting a joined command gives the words back exactly when none holds a delimiter, no argument is
   * empty and the command is not too long.
   */
  lemma SplitUndoesJoinIff(words: seq<seq<byte>>)
    requires words != [] && forall n | 0 <= n < |words| :: IsText(words[n])
    ensures Split(Join(words)) == Some([DOT_SLASH + words[0]] + words[1..]) <==> Splittable(words) && |Join(words)| <= 1023
  {
    if Splittable(words) { SplitJoined(words); }
    if Tokens(Join(words)) == [DOT_SLASH + words[0]] + words[1..] { SplitGivesSplittable(words); }
  }

  // ----- lengths

  /** Length of these words, each behind a space. */
  function Spaced(words: seq<seq<byte>>): nat {
    if words == [] then 0 else 1 + |words[0]| + Spaced(words[1..])
  }

  lemma {:induction false} SpacedLast(words: seq<seq<byte>>, w: seq<byte>)
    ensures Spaced(words + [w]) == Spaced(words) + 1 + |w|
  {
    if words == [] {
      assert words + [w] == [w];
    } else {
      assert (words + [w])[1..] == words[1..] + [w];
      SpacedLast(words[1..], w);
    }
  }

  lemma {:induction false} JoinLength(words: seq<seq<byte>>, n: nat)
    requires 1 <= n <= |words|
    ensures |JoinFirst(words, n)| == |words[0]| + Spaced(words[1..n])
    decreases n
  {
    if n > 1 {
      JoinLength(words, n - 1);
      assert words[1..n] == words[1..n - 1] + [words[n - 1]];
      SpacedLast(words[1..n - 1], words[n - 1]);
    }
  }

  /** The arguments from i on need no more room than they have, one delimiter before the first included. */
  lemma {:induction false} ArgsFit(s: seq<byte>, i: nat)
    requires i <= |s|
    ensures Spaced(Args(s, i)) <= |s| - i + 1
    ensures i == |s| ==> Args(s, i) == []
    decreases |s| - i
  {
    if HasArg(s, i) {
      var rest := Args(s, After(s, i));
      ArgsFit(s, After(s, i));
      assert ([ArgAt(s, i)] + rest)[1..] == rest;
    }
  }

  /** The arguments that splitting finds are words. */
  lemma {:induction false} ArgsAreWords(s: seq<byte>, i: nat, n: nat)
    requires i <= |s| && n < |Args(s, i)|
    ensures IsWord(Args(s, i)[n])
    decreases n
  {
    if n == 0 {
      var j := SkipSpaces(s, i);
      forall k | j <= k < WordEnd(s, j) ensures !IsDelimiter(s[k]) { InsideWord(s, j, k); }
    } else {
      ArgsAreWords(s, After(s, i), n - 1);
    }
  }

  lemma SplitIsSplittable(s: seq<byte>)
    ensures Splittable([s[..WordEnd(s, 0)]] + Args(s, ArgsStart(s)))
  {
    var first, args := s[..WordEnd(s, 0)], Args(s, ArgsStart(s));
    forall k | 0 <= k < |first| ensures !IsDelimiter(first[k]) { InsideWord(s, 0, k); }
    forall n | 0 <= n < |args| ensures IsWord(args[n]) { ArgsAreWords(s, ArgsStart(s), n); }
  }

  /** A command with single spaces, which splits the same. */
  function Tidied(s: seq<byte>): seq<byte> {
    Join([s[..WordEnd(s, 0)]] + Args(s, ArgsStart(s)))
  }

  /** Joining what splitting found is no longer than the command and splits the same, for every command. */
  lemma JoinUndoesSplit(s: seq<byte>)
    ensures Tokens(Tidied(s)) == Tokens(s) && |Tidied(s)| <= |s|
    ensures |s| <= 1023 ==> Split(Tidied(s)) == Split(s)
  {
    var words := [s[..WordEnd(s, 0)]] + Args(s, ArgsStart(s));
    SplitIsSplittable(s);
    SplitJoined(words);
    assert words[1..] == Args(s, ArgsStart(s)) && words[1..|words|] == words[1..];
    JoinLength(words, |words|);
    ArgsFit(s, ArgsStart(s));
  }
}
