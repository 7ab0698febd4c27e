/**
 * The three terminals: video mapping, cursors and the output routines. Four physical pages, the page table
 * and the cache of translations are updated as the C code updates them; `Valid` says that each active
 * terminal's page, wherever it is mapped, shows that terminal's tape, with the cursor behind its last
 * character.
 */
module ConsoleMachine {
  import opened Machine
  import opened Tapes
  import opened Screen

  const VIDEO := 0xB8

  /** A page table entry: the physical page number and the three flags paging_init sets. */
  datatype Pte = Pte(address: int, present: bool, user: bool, write: bool)

  class Console {
    const video: array<byte>
    const pageTable: array<Pte>
    var tlb: map<int, int>
    const termX: array<int>
    const termY: array<int>
    var screenX: int
    var screenY: int
    var currentTerminal: int
    const active: array<bool>

    /** What each active terminal shows. */
    ghost var tapes: seq<Tape>

    ghost predicate Allocated() {
      && video.Length == VIDEO_BYTES && pageTable.Length == 1024
      && termX.Length == 3 && termY.Length == 3 && termX != termY && active.Length == 3
    }

    // ----- paging

    /** Virtual page of terminal t's screen, the display's own page, and the kernel's view of the backing page. */
    static function TerminalPage(t: int): int {
      VIDEO + 1 + t
    }

    /** The displayed terminal is mapped onto the display page, every other onto its own. */
    ghost predicate Mapped(shown: int)
      requires pageTable.Length == 1024
      reads pageTable
    {
      && pageTable[VIDEO].address == VIDEO && pageTable[VIDEO].present
      && (forall t | 0 <= t < 3 :: pageTable[TerminalPage(t)].address == (if t == shown then VIDEO else TerminalPage(t))
                                   && pageTable[TerminalPage(t)].present)
      && pageTable[VIDEO + 4].address == TerminalPage(shown) && pageTable[VIDEO + 4].present
    }

    /** No cached translation disagrees with the page table. */
    ghost predicate Coherent()
      requires pageTable.Length == 1024
      reads this`tlb, pageTable
    {
      forall v | v in tlb :: 0 <= v < 1024 && tlb[v] == pageTable[v].address
    }

    /** A translation: a cached entry wins over the page table, and a walk is cached. */
    method Translate(v: int) returns (page: int)
      requires Allocated() && Coherent() && 0 <= v < 1024 && pageTable[v].present
      modifies this`tlb
      ensures Coherent() && page == pageTable[v].address
    {
      if v !in tlb { tlb := tlb[v := pageTable[v].address]; }
      page := tlb[v];
    }

    method FlushTlb()
      requires Allocated()
      modifies this`tlb
      ensures Coherent()
    {
      tlb := map[];
    }

    // ----- the invariant

    /** The physical page, counted from 0xB8, that carries terminal t's screen. */
    function PageOf(t: int): int
      reads this`currentTerminal
    {
      if t == currentTerminal then 0 else 1 + t
    }

    ghost predicate Good(t: int)
      requires Allocated() && |tapes| == 3 && 0 <= t < 3
      reads this, video, termX, termY
    {
      Fits(tapes[t]) && CursorAt(termX[t], termY[t], tapes[t]) && Shows(video[..], PageOf(t), tapes[t])
    }

    ghost predicate Valid()
      reads this, video, pageTable, termX, termY, active
    {
      && Allocated() && |tapes| == 3 && 0 <= currentTerminal < 3 && active[currentTerminal]
      && Mapped(currentTerminal) && Coherent()
      && screenX == termX[currentTerminal] && screenY == termY[currentTerminal]
      && forall t | 0 <= t < 3 && active[t] :: Good(t)
    }

    // ----- output

    /** One character store of tputc, through the terminal's own virtual page. */
    method Put(t: int, i: int, c: byte)
      requires Allocated() && 0 <= t < 3 && 0 <= i < 2048 && 0 <= currentTerminal < 3
      requires Mapped(currentTerminal) && Coherent()
      modifies this`tlb, video
      ensures Coherent() && video[..] == Stored(old(video[..]), PageOf(t), i, c)
    {
      var page := Translate(TerminalPage(t));
      StoreCell(video, page - VIDEO, i, c);
    }

    /** tscroll, or scroll for the displayed terminal. */
    method TScroll(t: int)
      requires Allocated() && |tapes| == 3 && 0 <= t < 3 && 0 <= currentTerminal < 3
      requires Mapped(currentTerminal) && Coherent()
      requires Shows(video[..], PageOf(t), tapes[t]) && |tapes[t].text| == 80 * tapes[t].top + CELLS
      modifies this`tlb, video
      ensures Coherent() && Shows(video[..], PageOf(t), Tape(tapes[t].top + 1, tapes[t].text))
      ensures OthersSame(video[..], old(video[..]), PageOf(t))
    {
      var page := Translate(TerminalPage(t));
      ScrollPage(video, page - VIDEO, tapes[t]);
    }

    /** The newline loop of tputc: blanks up to and including column 80. */
    method PadRow(t: int)
      requires Allocated() && |tapes| == 3 && 0 <= t < 3 && 0 <= currentTerminal < 3
      requires Mapped(currentTerminal) && Coherent() && Good(t) && termY[t] < 25
      modifies this`tlb, video, termX
      ensures Coherent() && Shows(video[..], PageOf(t), tapes[t]) && termX[t] == 81
      ensures forall u | 0 <= u < 3 && u != t :: termX[u] == old(termX[u])
      ensures OthersSame(video[..], old(video[..]), PageOf(t))
    {
      ghost var was := video[..];
      while termX[t] <= 80
        invariant Coherent() && Shows(video[..], PageOf(t), tapes[t]) && old(termX[t]) <= termX[t] <= 81
        invariant forall u | 0 <= u < 3 && u != t :: termX[u] == old(termX[u])
        invariant OthersSame(video[..], was, PageOf(t))
        decreases 81 - termX[t]
      {
        ghost var mid := video[..];
        Put(t, 80 * termY[t] + termX[t], SPACE);
        BlankBehindCursor(mid, PageOf(t), tapes[t], 80 * termY[t] + termX[t]);
        StoredKeepsOthers(was, mid, PageOf(t), 80 * termY[t] + termX[t], SPACE);
        termX[t] := termX[t] + 1;
      }
    }

    /** A step of an output routine on terminal t: no other terminal's page, cursor or tape changes. */
    twostate predicate OnlyTerminal(t: int)
      requires Allocated() && old(|tapes|) == |tapes| == 3 && 0 <= t < 3
      reads this, video, termX, termY
    {
      && currentTerminal == old(currentTerminal) && OthersSame(video[..], old(video[..]), PageOf(t))
      && forall u | 0 <= u < 3 && u != t :: termX[u] == old(termX[u]) && termY[u] == old(termY[u]) && tapes[u] == old(tapes[u])
    }

    ghost predicate Writing(t: int)
      reads this, video, pageTable, termX, termY
    {
      && Allocated() && |tapes| == 3 && 0 <= t < 3 && 0 <= currentTerminal < 3
      && Mapped(currentTerminal) && Coherent() && Good(t)
    }

    /** The row a character goes to: below the last one the screen scrolls first. */
    static function Row(y: int): int {
      if y >= 25 then 24 else y
    }

    /** The lazy scroll at the head of tputc and putc. */
    method LazyScroll(t: int)
      requires Writing(t)
      modifies this`tlb, this`tapes, video, termY
      ensures Writing(t) && termY[t] < 25 && OnlyTerminal(t) && tapes[t] == Scrolled(old(tapes[t]))
      ensures termX[t] == old(termX[t]) && termY[t] == Row(old(termY[t]))
    {
      ghost var tape := tapes[t];
      if termY[t] >= 25 {
        termY[t] := 24;
        TScroll(t);
      }
      tapes := tapes[t := Scrolled(tape)];
    }

    /** The line-break branch of tputc. */
    method Break(t: int)
      requires Writing(t) && termY[t] < 25
      modifies this`tlb, this`tapes, video, termX, termY
      ensures Writing(t) && OnlyTerminal(t)
      ensures tapes[t] == Tape(old(tapes[t]).top, old(tapes[t]).text + Blanks(Padding(old(tapes[t]))))
      ensures termX[t] == 0 && termY[t] == old(termY[t]) + 1
    {
      ghost var tape := tapes[t];
      assert |tape.text| % 80 == termX[t];
      PadRow(t);
      PaddingInvisible(video[..], PageOf(t), tape, Padding(tape));
      termY[t] := termY[t] + 1;
      termX[t] := 0;
      tapes := tapes[t := Tape(tape.top, tape.text + Blanks(Padding(tape)))];
    }

    /** The character branch of tputc. */
    method Character(t: int, c: byte)
      requires Writing(t) && termY[t] < 25
      modifies this`tlb, this`tapes, video, termX, termY
      ensures Writing(t) && OnlyTerminal(t) && tapes[t] == Tape(old(tapes[t]).top, old(tapes[t]).text + [c])
      ensures termX[t] == (old(termX[t]) + 1) % 80
    {
      ghost var was, tape := video[..], tapes[t];
      ghost var i := 80 * termY[t] + termX[t];
      StoredAtCursor(was, PageOf(t), tape, i, c);
      StoredKeepsOthers(was, was, PageOf(t), i, c);
      Put(t, 80 * termY[t] + termX[t], c);
      termX[t] := termX[t] + 1;
      if termX[t] >= 80 {
        termY[t] := termY[t] + 1;
        termX[t] := 0;
      }
      tapes := tapes[t := Tape(tape.top, tape.text + [c])];
    }

    /** tputc: the terminal's tape takes the character; nothing else on any screen changes. */
    method TPutc(c: byte, t: int)
      requires Valid() && 0 <= t < 3 && active[t]
      modifies this`tlb, this`tapes, this`screenX, this`screenY, video, termX, termY
      ensures Valid() && tapes == old(tapes)[t := Typed(old(tapes[t]), c)]
      ensures if c == 10 || c == 13 then termX[t] == 0 && termY[t] == Row(old(termY[t])) + 1
              else tapes[t].text == old(tapes[t]).text + [c] && termX[t] == (old(termX[t]) + 1) % 80
    {
      assert Good(t);
      LazyScroll(t);
      ghost var mid := video[..];
      if IsBreak(c) { Break(t); } else { Character(t, c); }
      if t == currentTerminal {
        screenX := termX[t];
        screenY := termY[t];
      }
      OthersSameTwice(video[..], mid, old(video[..]), PageOf(t));
      StillGood(t);
    }

    ghost predicate RestGood(t: int)
      reads this, video, termX, termY, active
    {
      && Allocated() && |tapes| == 3 && 0 <= currentTerminal < 3
      && forall u | 0 <= u < 3 && active[u] && u != t :: Good(u)
    }

    twostate lemma StillGood(t: int)
      requires old(RestGood(t)) && Writing(t) && active[..] == old(active[..]) && active[currentTerminal] && OnlyTerminal(t)
      ensures forall u | 0 <= u < 3 && active[u] :: Good(u)
    {
      forall u | 0 <= u < 3 && active[u] ensures Good(u) {
        if u != t {
          assert old(Good(u));
          assert SamePage(video[..], old(video[..]), PageOf(u));
          ShowsFrame(video[..], old(video[..]), PageOf(u), tapes[u]);
        }
      }
    }

    /** save_pos. */
    method SavePos()
      requires Allocated() && 0 <= currentTerminal < 3
      modifies termX, termY
      ensures termX[..] == old(termX[..])[currentTerminal := screenX] && termY[..] == old(termY[..])[currentTerminal := screenY]
    {
      termX[currentTerminal] := screenX;
      termY[currentTerminal] := screenY;
    }

    /** Everything Valid says except that the displayed terminal shows a tape. */
    ghost predicate Blank()
      reads this, video, pageTable, termX, termY, active
    {
      && Allocated() && |tapes| == 3 && 0 <= currentTerminal < 3 && active[currentTerminal]
      && Mapped(currentTerminal) && Coherent() && RestGood(currentTerminal)
    }

    /** A store through the display's own virtual page. */
    method PutDisplay(i: int, c: byte)
      requires Allocated() && 0 <= i < 2048 && 0 <= currentTerminal < 3 && Mapped(currentTerminal) && Coherent()
      modifies this`tlb, video
      ensures Coherent() && video[..] == Stored(old(video[..]), 0, i, c)
    {
      var page := Translate(VIDEO);
      StoreCell(video, page - VIDEO, i, c);
    }

    /** putc: the kernel's own output, through the display page; it agrees with tputc on the displayed terminal. */
    method Putc(c: byte)
      requires Valid()
      modifies this`tlb, this`tapes, this`screenX, this`screenY, video, termX, termY
      ensures Valid() && tapes == old(tapes)[currentTerminal := Typed(old(tapes[currentTerminal]), c)]
      ensures if c == 10 || c == 13 then screenX == 0 && screenY == Row(old(screenY)) + 1
              else tapes[currentTerminal].text == old(tapes[currentTerminal]).text + [c] && screenX == (old(screenX) + 1) % 80
    {
      assert Good(currentTerminal);
      LazyScrollDisplay();
      ghost var mid := video[..];
      if IsBreak(c) { BreakDisplay(); } else { CharacterDisplay(c); }
      SavePos();
      OthersSameTwice(video[..], mid, old(video[..]), 0);
      StillGood(currentTerminal);
    }

    /** The display's cursor and page carry the displayed terminal's tape; termX and termY may lag behind. */
    ghost predicate Displaying()
      reads this, video, pageTable
    {
      && Allocated() && |tapes| == 3 && 0 <= currentTerminal < 3 && Mapped(currentTerminal) && Coherent()
      && Fits(tapes[currentTerminal]) && CursorAt(screenX, screenY, tapes[currentTerminal])
      && Shows(video[..], 0, tapes[currentTerminal])
    }

    /** The line-break branch of putc stores nothing: the rest of the row is blank already. */
    method BreakDisplay()
      requires Displaying() && screenY < 25
      modifies this`tapes, this`screenX, this`screenY
      ensures Displaying() && OthersSame(video[..], old(video[..]), 0) && screenX == 0 && screenY == old(screenY) + 1
      ensures var tape := old(tapes[currentTerminal]);
        tapes == old(tapes)[currentTerminal := Tape(tape.top, tape.text + Blanks(Padding(tape)))]
    {
      ghost var tape := tapes[currentTerminal];
      PaddingInvisible(video[..], 0, tape, Padding(tape));
      assert |tape.text| % 80 == screenX;
      screenY := screenY + 1;
      screenX := 0;
      tapes := tapes[currentTerminal := Tape(tape.top, tape.text + Blanks(Padding(tape)))];
    }

    /** The character branch of putc. */
    method CharacterDisplay(c: byte)
      requires Displaying() && screenY < 25
      modifies this`tlb, this`tapes, this`screenX, this`screenY, video
      ensures Displaying() && OthersSame(video[..], old(video[..]), 0) && screenX == (old(screenX) + 1) % 80
      ensures var tape := old(tapes[currentTerminal]);
        tapes == old(tapes)[currentTerminal := Tape(tape.top, tape.text + [c])]
    {
      ghost var tape := tapes[currentTerminal];
      StoredAtCursor(video[..], 0, tape, 80 * screenY + screenX, c);
      StoredKeepsOthers(video[..], video[..], 0, 80 * screenY + screenX, c);
      PutDisplay(80 * screenY + screenX, c);
      screenX := screenX + 1;
      if screenX >= 80 {
        screenY := screenY + 1;
        screenX := 0;
      }
      tapes := tapes[currentTerminal := Tape(tape.top, tape.text + [c])];
    }

    /** The lazy scroll at the head of putc. */
    method LazyScrollDisplay()
      requires Writing(currentTerminal) && screenX == termX[currentTerminal] && screenY == termY[currentTerminal]
      modifies this`tlb, this`tapes, this`screenY, video
      ensures Displaying() && screenY < 25 && OthersSame(video[..], old(video[..]), 0) && screenY == Row(old(screenY))
      ensures tapes == old(tapes)[currentTerminal := Scrolled(old(tapes[currentTerminal]))]
    {
      if screenY >= 25 {
        screenY := 24;
        var page := Translate(VIDEO);
        ScrollPage(video, page - VIDEO, tapes[currentTerminal]);
      }
      tapes := tapes[currentTerminal := Scrolled(tapes[currentTerminal])];
    }

    /** The loop of clear. */
    method BlankDisplay()
      requires Allocated() && 0 <= currentTerminal < 3 && Mapped(currentTerminal) && Coherent()
      modifies this`tlb, video
      ensures Coherent() && OthersSame(video[..], old(video[..]), 0) && Shows(video[..], 0, CLEARED)
    {
      ghost var was := video[..];
      var i := 0;
      while i < 2000
        invariant 0 <= i <= 2000 && Coherent() && OthersSame(video[..], was, 0)
        invariant forall j {:trigger Address(0, j)} | 0 <= j < i :: video[Address(0, j)] == SPACE
      {
        StoredKeepsOthers(was, video[..], 0, i, SPACE);
        PutDisplay(i, SPACE);
        i := i + 1;
      }
    }

    /** clear. */
    method Clear()
      requires Blank()
      modifies this`tlb, this`tapes, this`screenX, this`screenY, video, termX, termY
      ensures Valid() && tapes == old(tapes)[currentTerminal := CLEARED]
    {
      BlankDisplay();
      screenX := 0;
      screenY := 0;
      tapes := tapes[currentTerminal := CLEARED];
      RestStillGood(currentTerminal);
      Settle();
    }

    twostate lemma RestStillGood(t: int)
      requires 0 <= t < 3 && old(RestGood(t)) && Allocated() && |tapes| == 3 && active[..] == old(active[..]) && OnlyTerminal(t)
      ensures RestGood(t)
    {
      forall u | 0 <= u < 3 && active[u] && u != t ensures Good(u) {
        assert old(Good(u));
        assert SamePage(video[..], old(video[..]), PageOf(u));
        ShowsFrame(video[..], old(video[..]), PageOf(u), tapes[u]);
      }
    }

    /** save_pos at the end of a display routine. */
    method Settle()
      requires Displaying() && RestGood(currentTerminal) && active[currentTerminal]
      modifies termX, termY
      ensures Valid()
    {
      SavePos();
      forall u | 0 <= u < 3 && active[u] ensures Good(u) {
        if u != currentTerminal { assert old(Good(u)); }
      }
    }

    /** terminal_backspace. */
    method TerminalBackspace()
      requires Valid()
      modifies this`tlb, this`tapes, this`screenX, this`screenY, video, termX, termY
      ensures Valid() && tapes == old(tapes)[currentTerminal := Erased(old(tapes[currentTerminal]))]
    {
      assert Good(currentTerminal);
      ghost var tape, was := tapes[currentTerminal], video[..];
      if screenX == 0 && screenY == 0 { return; }
      var i := 80 * screenY + screenX - 1;
      var page := Translate(VIDEO);
      StoredErases(was, was[Address(0, i) := SPACE], 0, tape, i);
      video[Address(page - VIDEO, i)] := SPACE;
      if screenX == 0 {
        screenY := screenY - 1;
        screenX := 79;
      } else {
        screenX := screenX - 1;
      }
      SavePos();
      tapes := tapes[currentTerminal := Erased(tape)];
      StillGood(currentTerminal);
    }

    /** The page table updates of switch_terminal, then the flush that makes them take effect. */
    method Remap(t: int)
      requires Allocated() && 0 <= currentTerminal < 3 && 0 <= t < 3 && t != currentTerminal && Mapped(currentTerminal)
      modifies this`tlb, pageTable
      ensures Coherent() && Mapped(t)
    {
      var own := TerminalPage(currentTerminal);
      pageTable[own] := pageTable[own].(address := own);
      pageTable[TerminalPage(t)] := pageTable[TerminalPage(t)].(address := VIDEO);
      pageTable[VIDEO + 4] := pageTable[VIDEO + 4].(address := TerminalPage(t));
      FlushTlb();
    }

    /** memcpy of one virtual page onto another. */
    method CopyVirtual(to: int, from: int)
      requires Allocated() && Coherent() && 0 <= to < 1024 && 0 <= from < 1024
      requires pageTable[to].present && pageTable[from].present && pageTable[to].address != pageTable[from].address
      requires VIDEO <= pageTable[to].address < VIDEO + 4 && VIDEO <= pageTable[from].address < VIDEO + 4
      modifies this`tlb, video
      ensures Coherent()
      ensures PageCopied(video[..], pageTable[to].address - VIDEO, old(video[..]), pageTable[from].address - VIDEO)
      ensures OthersSame(video[..], old(video[..]), pageTable[to].address - VIDEO)
    {
      var q := Translate(to);
      var p := Translate(from);
      CopyPage(video, q - VIDEO, p - VIDEO);
    }

    /** The remap and the two page copies of switch_terminal. */
    method ExchangePages(t: int)
      requires Allocated() && 0 <= currentTerminal < 3 && 0 <= t < 3 && t != currentTerminal && Mapped(currentTerminal)
      requires |tapes| == 3
      modifies this`tlb, pageTable, video
      ensures Coherent() && Mapped(t)
      ensures forall u | 0 <= u < 3 ::
        Shows(old(video[..]), PageOf(u), tapes[u]) ==> Shows(video[..], if u == t then 0 else 1 + u, tapes[u])
    {
      ghost var was := video[..];
      Remap(t);
      CopyVirtual(TerminalPage(currentTerminal), VIDEO);
      ghost var mid := video[..];
      CopyVirtual(VIDEO, VIDEO + 4);
      SwitchShows(video[..], mid, was, currentTerminal, t);
    }

    /** The screen side of switch_terminal: every terminal keeps its tape and its cursor. */
    method SwitchScreen(t: int)
      requires Valid() && 0 <= t < 3 && t != currentTerminal
      modifies this`tlb, this`screenX, this`screenY, this`currentTerminal, pageTable, video, termX, termY
      ensures currentTerminal == t && Mapped(t) && Coherent() && RestGood(t)
      ensures active[t] ==> Valid()
    {
      SavePos();
      assert Good(currentTerminal);
      ExchangePages(t);
      currentTerminal := t;
      screenX := termX[currentTerminal];
      screenY := termY[currentTerminal];
      forall u | 0 <= u < 3 && active[u] ensures Good(u) { assert old(Good(u)); }
    }

    /** Two page copies exchange the displayed terminal for another and leave the third alone. */
    lemma SwitchShows(now: seq<byte>, mid: seq<byte>, was: seq<byte>, c: int, t: int)
      requires |tapes| == 3 && 0 <= c < 3 && 0 <= t < 3 && c != t
      requires PageCopied(mid, 1 + c, was, 0) && OthersSame(mid, was, 1 + c)
      requires PageCopied(now, 0, mid, 1 + t) && OthersSame(now, mid, 0)
      ensures Shows(was, 0, tapes[c]) ==> Shows(now, 1 + c, tapes[c])
      ensures Shows(was, 1 + t, tapes[t]) ==> Shows(now, 0, tapes[t])
      ensures forall u | 0 <= u < 3 && u != c && u != t :: Shows(was, 1 + u, tapes[u]) ==> Shows(now, 1 + u, tapes[u])
    {
      if Shows(was, 0, tapes[c]) {
        ShowsCopied(mid, 1 + c, was, 0, tapes[c]);
        ShowsFrame(now, mid, 1 + c, tapes[c]);
      }
      if Shows(was, 1 + t, tapes[t]) {
        ShowsFrame(mid, was, 1 + t, tapes[t]);
        ShowsCopied(now, 0, mid, 1 + t, tapes[t]);
      }
      forall u | 0 <= u < 3 && u != c && u != t && Shows(was, 1 + u, tapes[u]) ensures Shows(now, 1 + u, tapes[u]) {
        ShowsFrame(mid, was, 1 + u, tapes[u]);
        ShowsFrame(now, mid, 1 + u, tapes[u]);
      }
    }

    /** What the user sees: cell (row, col) of the display is the tape's, and the cursor stands behind its last character. */
    lemma DisplayShowsTape(row: int, col: int)
      requires Valid() && 0 <= row < 25 && 0 <= col < 80
      ensures var tape := tapes[currentTerminal];
        var k := 80 * (tape.top + row) + col;
        video[2 * (80 * row + col)] == (if k < |tape.text| then tape.text[k] else 32)
        && 80 * (tape.top + screenY) + screenX == |tape.text| && 0 <= screenX < 80 && 0 <= screenY <= 25
    {
      assert Good(currentTerminal);
      assert CellOf(tapes[currentTerminal], 80 * row + col) == video[Address(0, 80 * row + col)];
    }

    /** paging_init: identity everywhere, except the two entries that make terminal 0 the displayed one. */
    method PagingInit()
      requires Allocated()
      modifies pageTable, this`tlb
      ensures Mapped(0) && Coherent()
      ensures forall i | 0 <= i < 1024 && i != VIDEO + 1 && i != VIDEO + 4 :: pageTable[i].address == i
      ensures forall i | 0 <= i < 1024 :: pageTable[i].present <==> VIDEO <= i <= VIDEO + 4
      ensures forall i | 0 <= i < 1024 :: pageTable[i].user <==> VIDEO + 1 <= i <= VIDEO + 3
    {
      for i := 0 to 1024
        invariant forall j | 0 <= j < i :: pageTable[j] == Pte(j, false, false, true)
      {
        pageTable[i] := Pte(i, false, false, true);
      }
      pageTable[VIDEO] := Pte(VIDEO, true, false, true);
      pageTable[VIDEO + 1] := Pte(VIDEO, true, true, true);
      pageTable[VIDEO + 2] := Pte(VIDEO + 2, true, true, true);
      pageTable[VIDEO + 3] := Pte(VIDEO + 3, true, true, true);
      pageTable[VIDEO + 4] := Pte(VIDEO + 1, true, false, true);
      FlushTlb();
    }

    /** The globals before boot: zeroed, with terminal 0 marked active. */
    constructor ()
      ensures Allocated() && fresh(this) && fresh(video) && fresh(pageTable) && fresh(termX) && fresh(termY) && fresh(active)
      ensures currentTerminal == 0 && active[0] && !active[1] && !active[2] && |tapes| == 3
    {
      video := new byte[VIDEO_BYTES](_ => 0);
      pageTable := new Pte[1024](_ => Pte(0, false, false, false));
      tlb := map[];
      termX := new int[3](_ => 0);
      termY := new int[3](_ => 0);
      active := new bool[3](i => i == 0);
      screenX, screenY, currentTerminal := 0, 0, 0;
      tapes := [CLEARED, CLEARED, CLEARED];
    }

    /** Boot establishes the invariant with a cleared display. */
    method Boot()
      requires Allocated() && currentTerminal == 0 && active[0] && !active[1] && !active[2] && |tapes| == 3
      modifies this`tlb, this`tapes, this`screenX, this`screenY, video, pageTable, termX, termY
      ensures Valid() && tapes == old(tapes)[0 := CLEARED]
    {
      PagingInit();
      Clear();
    }
  }
}
