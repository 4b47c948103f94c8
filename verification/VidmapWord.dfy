/** `vidmap` from end to end: the address a program finds at its pointer is the screen. */
module VidmapWord {
  import opened Bytes
  import opened Terminal
  import opened Processes
  import opened Paging
  import opened System
  import opened Isolation
  import opened Screens
  import opened VideoAim

  /** The four bytes at a physical address as the processor loads them, lowest first. */
  function WordAt(mem: map<int, byte>, a: int): int {
    Read(mem, a) as int + 0x100 * Read(mem, a + 1) as int + 0x1_0000 * Read(mem, a + 2) as int + 0x100_0000 * Read(mem, a + 3) as int
  }

  lemma BytesArrive(s: State, e: Step, ptr: int, bytes: seq<byte>, j: int)
    requires s.Good() && Possible(s, e) && Writing(e) && PatchesOf(s, e) == PageWrites(ptr, bytes)
    requires PROGRAM_PAGE <= ptr && 0 <= j < |bytes| && ptr + j < PROGRAM_PAGE + FRAME
    ensures Read(Go(s, e).mem, FrameBase(s.procs.main) + (ptr - PROGRAM_PAGE) + j) == bytes[j]
  {
    var k := ptr - PROGRAM_PAGE + j;
    PatchesLand(s, e, k);
    AfterCopy(ptr, bytes, j, Read(s.mem, FrameBase(s.procs.main) + k));
  }

  lemma WordIs(mem: map<int, byte>, a: int)
    requires Read(mem, a) == 0 && Read(mem, a + 1) == 0 && Read(mem, a + 2) == 0x80 && Read(mem, a + 3) == 0x08
    ensures WordAt(mem, a) == VIDMAP_PAGE
  {
  }

  lemma WordArrives(s: State, e: Step, ptr: int, bytes: seq<byte>, a: int)
    requires s.Good() && Possible(s, e) && e == Vidmap(ptr) && bytes == VIDMAP_BYTES
    requires PROGRAM_PAGE <= ptr && ptr + 4 <= PROGRAM_PAGE + FRAME && a == FrameBase(s.procs.main) + (ptr - PROGRAM_PAGE)
    ensures WordAt(Go(s, e).mem, a) == VIDMAP_PAGE
  {
    BytesArrive(s, e, ptr, bytes, 0);
    BytesArrive(s, e, ptr, bytes, 1);
    BytesArrive(s, e, ptr, bytes, 2);
    BytesArrive(s, e, ptr, bytes, 3);
    WordIs(Go(s, e).mem, a);
  }

  lemma Opened(s: State, e: Step, ptr: int)
    requires s.Good() && Possible(s, e) && e == Vidmap(ptr) && PROGRAM_PAGE <= ptr && ptr + 4 <= PROGRAM_PAGE + FRAME
    ensures var u := Go(s, e); VidmapOnScreen(u) && u.procs == s.procs && u.screens == s.screens
  {
    VidmapFixed(s.pages, s.procs.main);
    Unseen(s, e);
  }

  /** Where the open vidmap page leads that is aimed at the video page `at`. */
  lemma CellAddress(p: Pages, va: int, offset: int, at: int)
    requires Fixed(p) && va == VIDMAP_PAGE + offset && 0 <= offset < 0x1000 && VideoPage(at)
    requires p.dir[34] == p.tableAt + USER_RW && p.table[0] == at + USER_RW
    ensures 0 <= va < 0x1_0000_0000 && Translate(p, va, true) == Some(at + offset)
  {
    assert va / 0x400000 == 34 && va / 0x1000 % 1024 == 0 && va % 0x1000 == offset;
    ThroughOpenTable(p, va);
  }

  /** Three terminals with cell `i` of terminal `t` replaced. */
  function Painted(screens: seq<Term>, t: int, i: int, b: byte): seq<Term>
    requires |screens| == 3 && screens[0].Valid() && screens[1].Valid() && screens[2].Valid() && 0 <= t < 3 && 0 <= i < 2000
  {
    screens[t := screens[t].(grid := screens[t].grid[i := b])]
  }

  /** The step is a store that replaces cell `i` of terminal `t` by `b`, and nothing else on any terminal. */
  predicate Paints(u: State, st: Step, t: int, i: int, b: byte)
    requires u.Good() && 0 <= t < 3 && 0 <= i < 2000
  {
    st.Store? && Possible(u, st) && Go(u, st).screens == Painted(u.screens, t, i, b)
  }

  lemma CellStored(u: State, va: int, t: int, i: int, b: byte)
    requires u.Formed() && 0 <= va < 0x1_0000_0000 && 0 <= t < 3 && 0 <= i < 2000
    requires Translate(u.pages, va, true) == Some(ScreenPage(u.procs.active, t) + 2 * i)
    ensures UserStore(u, va, b).screens == Painted(u.screens, t, i, b)
  {
  }

  /** While the vidmap page is open and aimed at the running process's terminal, a store at twice `i` paints cell `i` there. */
  lemma OwnCellPainted(u: State, st: Step, va: int, t: int, i: int, b: byte)
    requires u.Good() && u.pages.dir[34] == u.pages.tableAt + USER_RW && Fresh(u) && t == u.Turn()
    requires 0 <= i < 2000 && va == VIDMAP_PAGE + 2 * i && st == Store(va, b)
    ensures 0 <= t < 3 && Paints(u, st, t, i, b)
  {
    TurnIn(u);
    CellAddress(u.pages, va, 2 * i, ScreenPage(u.procs.active, t));
    CellStored(u, va, t, i, b);
  }

  lemma CellPainted(u: State, st: Step, va: int, i: int, b: byte)
    requires u.Good() && VidmapOnScreen(u) && 0 <= i < 2000 && va == VIDMAP_PAGE + 2 * i && st == Store(va, b)
    ensures Paints(u, st, u.procs.active, i, b)
  {
    CellAddress(u.pages, va, 2 * i, VIDEO);
    CellStored(u, va, u.procs.active, i, b);
  }

  /**
   After `vidmap` with a pointer into the program page, the word found there is the address of
   the displayed screen: a store at twice `i` above it replaces cell `i` and nothing else.
   */
  lemma VidmapIsScreen(s: State, e: Step, ptr: int, u: State, word: int, st: Step, i: int, b: byte)
    requires s.Good() && Possible(s, e) && e == Vidmap(ptr) && PROGRAM_PAGE <= ptr && ptr + 4 <= PROGRAM_PAGE + FRAME
    requires u == Go(s, e) && word == WordAt(u.mem, FrameBase(s.procs.main) + (ptr - PROGRAM_PAGE))
    requires st == Store(word + 2 * i, b) && 0 <= i < 2000
    ensures u.screens == s.screens && Paints(u, st, s.procs.active, i, b)
  {
    WordArrives(s, e, ptr, VIDMAP_BYTES, FrameBase(s.procs.main) + (ptr - PROGRAM_PAGE));
    Opened(s, e, ptr);
    CellPainted(u, st, word + 2 * i, i, b);
  }
}
