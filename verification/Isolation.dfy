/**
 Memory isolation over whole runs: the memory image of a process is what was loaded, plus the
 stores this process made itself and what system calls put into the buffers it gave them, in
 order; nothing else ever reaches it.  The kernel's page, apart from the variables the kernel
 means to change (its tables, control blocks and buffers), is safe from the system calls
 exactly while nobody gives them a buffer in that page or a command too long for its arrays.
 */
module Isolation {
  import opened Bytes
  import opened CommandLine
  import opened Processes
  import opened Ancestry
  import opened Paging
  import opened System

  const FRAME := 0x400000

  // ----- Patches -----

  /** What is at offset `k` after the given patches, if `b` was there before. */
  function After(patches: seq<Patch>, k: int, b: byte): byte
    decreases |patches|
  {
    if patches == [] then b else After(patches[1..], k, if patches[0].offset == k then patches[0].b else b)
  }

  lemma {:induction false} AfterConcat(a: seq<Patch>, c: seq<Patch>, k: int, b: byte)
    ensures After(a + c, k, b) == After(c, k, After(a, k, b))
    decreases |a|
  {
    if a == [] {
      assert a + c == c;
    } else {
      assert (a + c)[1..] == a[1..] + c;
      AfterConcat(a[1..], c, k, if a[0].offset == k then a[0].b else b);
    }
  }

  lemma AfterFirst(p: Patch, rest: seq<Patch>, k: int, b: byte)
    ensures After([p] + rest, k, b) == After(rest, k, if p.offset == k then p.b else b)
  {
    assert ([p] + rest)[1..] == rest;
  }

  /** Before where a copy starts in the program page, nothing changes. */
  lemma {:induction false} AfterBefore(va: int, bytes: seq<byte>, k: int, b: byte)
    requires PROGRAM_PAGE <= va && 0 <= k < va - PROGRAM_PAGE
    ensures After(PageWrites(va, bytes), k, b) == b
    decreases |bytes|
  {
    if bytes != [] && va / 0x400000 == 32 {
      AfterFirst(Patch(va % 0x400000, bytes[0]), PageWrites(va + 1, bytes[1..]), k, b);
      AfterBefore(va + 1, bytes[1..], k, b);
    }
  }

  /** Byte `j` of a copy into the program page is found `j` further on, as far as the page goes. */
  lemma {:induction false} AfterCopy(va: int, bytes: seq<byte>, j: int, b: byte)
    requires PROGRAM_PAGE <= va && 0 <= j < |bytes| && va + j < PROGRAM_PAGE + FRAME
    ensures After(PageWrites(va, bytes), va - PROGRAM_PAGE + j, b) == bytes[j]
    decreases |bytes|
  {
    PageOffset(va);
    AfterFirst(Patch(va - PROGRAM_PAGE, bytes[0]), PageWrites(va + 1, bytes[1..]), va - PROGRAM_PAGE + j, b);
    if j == 0 {
      AfterBefore(va + 1, bytes[1..], va - PROGRAM_PAGE, bytes[0]);
    } else {
      AfterCopy(va + 1, bytes[1..], j - 1, b);
    }
  }

  lemma PageOffset(va: int)
    requires PROGRAM_PAGE <= va < PROGRAM_PAGE + FRAME
    ensures va / 0x400000 == 32 && va % 0x400000 == va - PROGRAM_PAGE
  {
  }

  // ----- Bytes arriving -----

  lemma {:induction false} DepositElsewhere(mem: map<int, byte>, ls: seq<Landing>, a: int)
    requires forall l :: l in ls ==> l.at != a
    ensures Read(Deposit(mem, ls), a) == Read(mem, a)
    decreases |ls|
  {
    if ls != [] {
      DepositElsewhere(mem[ls[0].at := ls[0].b], ls[1..], a);
    }
  }

  lemma {:induction false} DepositInFrame(mem: map<int, byte>, ls: seq<Landing>, pid: int, k: int)
    requires 0 <= k < FRAME
    ensures Read(Deposit(mem, ls), FrameBase(pid) + k) == After(InFrameOf(ls, pid), k, Read(mem, FrameBase(pid) + k))
    decreases |ls|
  {
    if ls != [] {
      var stored := mem[ls[0].at := ls[0].b];
      DepositInFrame(stored, ls[1..], pid, k);
      if InFrame(ls[0].at, pid) {
        AfterFirst(Patch(ls[0].at - FrameBase(pid), ls[0].b), InFrameOf(ls[1..], pid), k, Read(mem, FrameBase(pid) + k));
      } else {
        assert InFrameOf(ls, pid) == InFrameOf(ls[1..], pid);
      }
    }
  }

  lemma {:induction false} LandElsewhere(s: State, ls: seq<Landing>, a: int)
    requires s.Drawable() && forall l :: l in ls ==> l.at != a || InVideo(a)
    ensures Read(LandAll(s, ls).mem, a) == Read(s.mem, a)
    decreases |ls|
  {
    if ls != [] {
      LandElsewhere(Land(s, ls[0].at, ls[0].b), ls[1..], a);
    }
  }

  lemma {:induction false} LandInFrame(s: State, ls: seq<Landing>, pid: int, k: int)
    requires s.Drawable() && 0 <= pid && 0 <= k < FRAME
    ensures Read(LandAll(s, ls).mem, FrameBase(pid) + k) == After(InFrameOf(ls, pid), k, Read(s.mem, FrameBase(pid) + k))
    decreases |ls|
  {
    if ls != [] {
      LandInFrame(Land(s, ls[0].at, ls[0].b), ls[1..], pid, k);
      if InFrame(ls[0].at, pid) {
        AfterFirst(Patch(ls[0].at - FrameBase(pid), ls[0].b), InFrameOf(ls[1..], pid), k, Read(s.mem, FrameBase(pid) + k));
      } else {
        assert InFrameOf(ls, pid) == InFrameOf(ls[1..], pid);
      }
    }
  }

  // ----- Loading a program -----

  /** Mapping the frame of `pid` and loading a program there. */
  function Loaded(p: Pages, mem: map<int, byte>, pid: int, image: seq<byte>): map<int, byte>
    requires p.Shaped()
  {
    Load(MapPage(p, FrameBase(pid), PROGRAM_PAGE), mem, IMAGE_AT, image)
  }

  lemma LoadedStays(p: Pages, mem: map<int, byte>, pid: int, image: seq<byte>, a: int)
    requires Fixed(p) && 0 <= pid < 6 && !InFrame(a, pid) && !InVideo(a)
    ensures Read(Loaded(p, mem, pid, image), a) == Read(mem, a)
  {
    var q := MapPage(p, FrameBase(pid), PROGRAM_PAGE);
    MapsProgram(p, pid);
    LandingsStay(q, pid, IMAGE_AT, image);
    DepositElsewhere(mem, Landings(q, IMAGE_AT, image), a);
  }

  /** Where byte `j` of a program file belongs in its process's frame. */
  function ImageOffset(j: int): int { 0x48000 + j }

  /** Every byte of a program that has room in the frame lies where the program expects it. */
  lemma LoadedLands(p: Pages, mem: map<int, byte>, pid: int, image: seq<byte>, j: int)
    requires Fixed(p) && 0 <= pid < 6 && 0 <= j < |image| && ImageOffset(j) < FRAME
    ensures Read(Loaded(p, mem, pid, image), FrameBase(pid) + ImageOffset(j)) == image[j]
  {
    var q := MapPage(p, FrameBase(pid), PROGRAM_PAGE);
    MapsProgram(p, pid);
    LandingsInPage(q, pid, IMAGE_AT, image);
    DepositInFrame(mem, Landings(q, IMAGE_AT, image), pid, ImageOffset(j));
    AfterCopy(IMAGE_AT, image, j, Read(mem, FrameBase(pid) + ImageOffset(j)));
  }

  /** The process a step loads a program for, and the program; -1 if it loads none. */
  function LoadOf(s: State, e: Step): (int, seq<byte>)
    requires s.Good() && Callable(s.procs, e)
  {
    match e
    case Start(_, _, image) => if image.None? || Pick(s.procs) == 6 then (-1, []) else (Pick(s.procs), image.value)
    case Finish(shell) => if s.procs.main < 3 then (s.procs.main, shell) else (-1, [])
    case Display(t, shell) => if s.procs.active != t && s.procs.curr[t] == NOBODY then (t, shell) else (-1, [])
    case _ => (-1, [])
  }

  predicate Loading(e: Step) { e.Start? || e.Finish? || e.Display? }

  /** Step `e` loads `image` for process `pid`. */
  predicate Loads(s: State, e: Step, pid: int, image: seq<byte>)
    requires s.Good()
  {
    Callable(s.procs, e) && Loading(e) && pid != -1 && LoadOf(s, e) == (pid, image)
  }

  /** The memory programs are loaded into: what a command spilled is there already. */
  function MemBefore(s: State, e: Step): map<int, byte>
    requires s.Good() && Callable(s.procs, e)
  {
    if e.Start? then CopyCommand(s, e.at, e.command).mem else s.mem
  }

  lemma BeginLoads(s: State, image: seq<byte>)
    requires s.Formed() && |image| <= IMAGE_LIMIT && (Pick(s.procs) == 6 ==> 0 <= s.Turn())
    ensures Begin(s, image).mem == if Pick(s.procs) == 6 then s.mem else Loaded(s.pages, s.mem, Pick(s.procs), image)
  {
  }

  lemma LaunchLoads(s: State, image: Option<seq<byte>>)
    requires s.Good() && (image.Some? ==> |image.value| <= IMAGE_LIMIT)
    ensures Launch(s, image).mem ==
            if image.None? || Pick(s.procs) == 6 then s.mem else Loaded(s.pages, s.mem, Pick(s.procs), image.value)
  {
    if image.Some? {
      BeginLoads(s, image.value);
    }
  }

  lemma DisplayLoads(s: State, t: int, shell: seq<byte>)
    requires s.Good() && Callable(s.procs, Display(t, shell))
    ensures SwitchTo(s, t, shell).mem ==
            if s.procs.active != t && s.procs.curr[t] == NOBODY then Loaded(s.pages, s.mem, t, shell) else s.mem
  {
    if s.procs.active != t && s.procs.curr[t] == NOBODY {
      FirstVisit(s.procs.(active := t));
      BeginLoads(s.(procs := s.procs.(active := t), args := []), shell);
    }
  }

  /** Starting programs, halting and switching terminals touch memory only by loading. */
  lemma MemoryLoaded(s: State, e: Step)
    requires s.Good() && Callable(s.procs, e) && Loading(e)
    ensures var (pid, image) := LoadOf(s, e);
            if pid == -1 then Next(s, e).mem == MemBefore(s, e)
            else 0 <= pid < 6 && Next(s, e).mem == Loaded(s.pages, MemBefore(s, e), pid, image)
  {
    match e
    case Display(t, shell) => DisplayLoads(s, t, shell);
    case Start(command, at, image) => LaunchLoads(CopyCommand(s, at, command), image);
    case Finish(_) =>
  }

  lemma LoadedLives(s: State, e: Step, pid: int, image: seq<byte>)
    requires s.Good() && Loads(s, e, pid, image)
    ensures 0 <= pid < |Next(s, e).procs.owner| && Next(s, e).procs.owner[pid] != FREE
  {
    match e
    case Finish(_) => ShellReturns(s.procs);
    case Display(t, _) => FirstVisit(s.procs.(active := t));
    case Start(_, _, _) =>
  }

  /** A program just started lives, and lies byte for byte where it belongs as far as its frame has room. */
  lemma ProgramLoaded(s: State, e: Step, pid: int, image: seq<byte>, j: int)
    requires s.Good() && Loads(s, e, pid, image) && 0 <= j < |image| && ImageOffset(j) < FRAME
    ensures Read(Next(s, e).mem, FrameBase(pid) + ImageOffset(j)) == image[j]
  {
    MemoryLoaded(s, e);
    LoadedLands(s.pages, MemBefore(s, e), pid, image, j);
  }

  // ----- One step -----

  /** What a step writes into the running process's program page. */
  function PatchesOf(s: State, e: Step): seq<Patch> {
    match e
    case Store(va, b) => PageWrites(va, [b])
    case Fill(va, bytes) => PageWrites(va, bytes)
    case GetArgs(va, n) => if n == 0 || s.args == [] then [] else PageWrites(va, s.args + [NUL])
    case Vidmap(ptr) => PageWrites(ptr, VIDMAP_BYTES)
    case _ => []
  }

  /** What arrives goes to the running process's frame or to video memory, and in the frame where it is meant to. */
  lemma ArrivalsIn(s: State, e: Step)
    requires s.Good() && Callable(s.procs, e) && Writing(e)
    ensures SparesKernel(s, e) ==> forall l :: l in Arrivals(s, e) ==> InFrame(l.at, s.procs.main) || InVideo(l.at)
    ensures InFrameOf(Arrivals(s, e), s.procs.main) == PatchesOf(s, e)
  {
    match e
    case Store(va, b) => StoreArrives(s, va, b);
    case Fill(va, bytes) =>
      LandingsInPage(s.pages, s.procs.main, va, bytes);
      if SparesKernel(s, e) { LandingsStay(s.pages, s.procs.main, va, bytes); }
    case GetArgs(va, n) =>
      LandingsInPage(s.pages, s.procs.main, va, s.args + [NUL]);
      if SparesKernel(s, e) && n != 0 && s.args != [] { LandingsStay(s.pages, s.procs.main, va, s.args + [NUL]); }
    case Vidmap(ptr) =>
      VidmapFixed(s.pages, s.procs.main);
      LandingsInPage(OpenVidmap(s.pages), s.procs.main, ptr, VIDMAP_BYTES);
      if SparesKernel(s, e) && ptr != 0x400000 { LandingsStay(OpenVidmap(s.pages), s.procs.main, ptr, VIDMAP_BYTES); }
  }

  lemma StoreArrives(s: State, va: int, b: byte)
    requires s.Good() && Callable(s.procs, Store(va, b))
    ensures forall l :: l in Arrivals(s, Store(va, b)) ==> InFrame(l.at, s.procs.main) || InVideo(l.at)
    ensures InFrameOf(Arrivals(s, Store(va, b)), s.procs.main) == PageWrites(va, [b])
  {
    UserReach(s.pages, s.procs.main, va);
    if va / 0x400000 == 32 {
      InFrameOfCons(Landing(FrameBase(s.procs.main) + va % 0x400000, b), [], s.procs.main);
    } else if Translate(s.pages, va, true).Some? {
      InFrameOfCons(Landing(Translate(s.pages, va, true).value, b), [], s.procs.main);
    }
  }

  /** A writing step leaves everything outside the running process's frame as it is, and its patches in it. */
  lemma WritingStays(s: State, e: Step, a: int)
    requires s.Good() && Callable(s.procs, e) && Writing(e) && SparesKernel(s, e) && !InFrame(a, s.procs.main)
    ensures Read(Next(s, e).mem, a) == Read(s.mem, a)
  {
    WritingLands(s, e);
    ArrivalsIn(s, e);
    LandElsewhere(s.(pages := TablesOf(s, e)), Arrivals(s, e), a);
  }

  lemma PatchesLand(s: State, e: Step, k: int)
    requires s.Good() && Callable(s.procs, e) && Writing(e) && 0 <= k < FRAME
    ensures var a := FrameBase(s.procs.main) + k;
            Read(Next(s, e).mem, a) == After(PatchesOf(s, e), k, Read(s.mem, a))
  {
    WritingLands(s, e);
    ArrivalsIn(s, e);
    LandInFrame(s.(pages := TablesOf(s, e)), Arrivals(s, e), s.procs.main, k);
  }

  lemma LoadingStays(s: State, e: Step, a: int)
    requires s.Good() && Callable(s.procs, e) && Loading(e)
    requires !InFrame(a, LoadOf(s, e).0) && !InVideo(a)
    ensures Read(Next(s, e).mem, a) == Read(MemBefore(s, e), a)
  {
    var (pid, image) := LoadOf(s, e);
    MemoryLoaded(s, e);
    if pid != -1 {
      LoadedStays(s.pages, MemBefore(s, e), pid, image, a);
    }
  }

  /** The only frame a step can change, or -1. */
  function Touched(s: State, e: Step): int
    requires s.Good() && Callable(s.procs, e)
  {
    if Writing(e) then s.procs.main else LoadOf(s, e).0
  }

  /** No step changes memory outside the one frame it is about: kernel memory in particular stays as it is. */
  lemma StepStays(s: State, e: Step, a: int)
    requires s.Good() && Possible(s, e) && !InFrame(a, Touched(s, e)) && !InVideo(a)
    ensures Read(Go(s, e).mem, a) == Read(s.mem, a)
  {
    if Writing(e) {
      WritingStays(s, e, a);
    } else if Loading(e) {
      LoadingStays(s, e, a);
    }
  }

  predicate Occupied(s: State, p: int) {
    0 <= p < |s.procs.owner| && s.procs.owner[p] != FREE
  }

  lemma EventSpares(s: Procs, v: Event, p: int)
    requires s.Basic() && Kin(s) && Allowed(s, v) && 0 <= p < 6 && s.owner[p] != FREE && (v == Exit ==> s.main != p)
    ensures Processes.Step(s, v).owner[p] != FREE
  {
    if v == Exit && s.main < 3 {
      ShellReturns(s);
    }
  }

  /** A live process survives every step but its own halt, and only its own writing touches its frame. */
  lemma StepSpares(s: State, e: Step, p: int)
    requires s.Good() && Possible(s, e) && Occupied(s, p) && (e.Finish? ==> s.procs.main != p)
    ensures Occupied(Go(s, e), p)
    ensures Touched(s, e) == p ==> Writing(e) && s.procs.main == p
  {
    StepProcs(s, e);
    if EventOf(e).Some? {
      EventSpares(s.procs, EventOf(e).value, p);
    }
    LoadsElsewhere(s, e, p);
  }

  /** A program is never loaded over a live process other than a halting one. */
  lemma LoadsElsewhere(s: State, e: Step, p: int)
    requires s.Good() && Callable(s.procs, e) && Occupied(s, p) && (e.Finish? ==> s.procs.main != p)
    ensures LoadOf(s, e).0 != p
  {
  }

  /** What step `e` writes as process `p`. */
  function WritesOf(s: State, e: Step, p: int): seq<Patch> {
    if s.procs.main == p then PatchesOf(s, e) else []
  }

  lemma FrameAddress(p: int, q: int, k: int)
    requires 0 <= p < 6 && -1 <= q < 6 && 0 <= k < FRAME && p != q
    ensures !InFrame(FrameBase(p) + k, q) && !InVideo(FrameBase(p) + k)
  {
    if 0 <= q {
      FramesApart(FrameBase(p) + k, p, q);
    }
  }

  lemma StepIsolated(s: State, e: Step, p: int, k: int)
    requires s.Good() && Possible(s, e) && Occupied(s, p) && (e.Finish? ==> s.procs.main != p) && 0 <= k < FRAME
    ensures Read(Go(s, e).mem, FrameBase(p) + k) == After(WritesOf(s, e, p), k, Read(s.mem, FrameBase(p) + k))
  {
    if Writing(e) {
      WritingIsolated(s, e, p, k);
    } else {
      StepSpares(s, e, p);
      TouchedRange(s, e);
      FrameAddress(p, Touched(s, e), k);
      StepStays(s, e, FrameBase(p) + k);
      assert WritesOf(s, e, p) == [];
    }
  }

  lemma WritingIsolated(s: State, e: Step, p: int, k: int)
    requires s.Good() && Possible(s, e) && Writing(e) && 0 <= p < 6 && 0 <= k < FRAME
    ensures Read(Next(s, e).mem, FrameBase(p) + k) == After(WritesOf(s, e, p), k, Read(s.mem, FrameBase(p) + k))
  {
    if s.procs.main == p {
      PatchesLand(s, e, k);
    } else {
      FrameAddress(p, s.procs.main, k);
      WritingStays(s, e, FrameBase(p) + k);
      assert WritesOf(s, e, p) == [];
    }
  }

  lemma TouchedRange(s: State, e: Step)
    requires s.Good() && Callable(s.procs, e)
    ensures -1 <= Touched(s, e) < 6
  {
  }

  // ----- Whole runs -----

  /** `p` does not halt during the run. */
  predicate NeverHalts(s: State, steps: seq<Step>, p: int)
    requires s.Good() && Follows(s, steps)
    decreases |steps|
  {
    steps == [] || ((steps[0].Finish? ==> s.procs.main != p) && NeverHalts(Go(s, steps[0]), steps[1..], p))
  }

  /** What `p` writes into its own program page while it has the CPU, in order. */
  function OwnWrites(s: State, steps: seq<Step>, p: int): seq<Patch>
    requires s.Good() && Follows(s, steps)
    decreases |steps|
  {
    if steps == [] then []
    else WritesOf(s, steps[0], p) + OwnWrites(Go(s, steps[0]), steps[1..], p)
  }

  /** Whatever everybody else does, a process's image is its own doing. */
  lemma {:induction false} MemoryIsolation(s: State, steps: seq<Step>, p: int, k: int)
    requires s.Good() && Follows(s, steps) && Occupied(s, p) && NeverHalts(s, steps, p) && 0 <= k < FRAME
    ensures Occupied(System.Run(s, steps), p)
    ensures Read(System.Run(s, steps).mem, FrameBase(p) + k) ==
            After(OwnWrites(s, steps, p), k, Read(s.mem, FrameBase(p) + k))
    decreases |steps|
  {
    if steps != [] {
      StepSpares(s, steps[0], p);
      StepIsolated(s, steps[0], p, k);
      MemoryIsolation(Go(s, steps[0]), steps[1..], p, k);
      AfterConcat(WritesOf(s, steps[0], p), OwnWrites(Go(s, steps[0]), steps[1..], p), k,
                  Read(s.mem, FrameBase(p) + k));
    }
  }

  /** What was at an offset, with the process's own writes on top. */
  lemma OwnDoing(s: State, steps: seq<Step>, p: int, k: int, b: byte)
    requires s.Good() && Follows(s, steps) && Occupied(s, p) && NeverHalts(s, steps, p)
    requires 0 <= k < FRAME && Read(s.mem, FrameBase(p) + k) == b
    ensures Read(System.Run(s, steps).mem, FrameBase(p) + k) == After(OwnWrites(s, steps, p), k, b)
  {
    MemoryIsolation(s, steps, p, k);
  }

  /** Process `p` lives, and its frame holds its program as far as there is room. */
  ghost predicate HoldsProgram(s: State, p: int, image: seq<byte>) {
    Occupied(s, p) && forall j :: 0 <= j < |image| && ImageOffset(j) < FRAME ==> Read(s.mem, FrameBase(p) + ImageOffset(j)) == image[j]
  }

  /** A step that starts a program leaves it running, its file in its frame. */
  lemma ProgramHeld(s: State, e: Step, p: int, image: seq<byte>)
    requires s.Good() && Possible(s, e) && Loads(s, e, p, image)
    ensures HoldsProgram(Go(s, e), p, image)
  {
    LoadedLives(s, e, p, image);
    forall j | 0 <= j < |image| && ImageOffset(j) < FRAME
      ensures Read(Next(s, e).mem, FrameBase(p) + ImageOffset(j)) == image[j]
    {
      ProgramLoaded(s, e, p, image, j);
    }
  }

  lemma HeldProgramRuns(s: State, p: int, image: seq<byte>, steps: seq<Step>, j: int)
    requires s.Good() && HoldsProgram(s, p, image) && Follows(s, steps) && NeverHalts(s, steps, p)
    requires 0 <= j < |image| && ImageOffset(j) < FRAME
    ensures Read(System.Run(s, steps).mem, FrameBase(p) + ImageOffset(j)) ==
            After(OwnWrites(s, steps, p), ImageOffset(j), image[j])
  {
    OwnDoing(s, steps, p, ImageOffset(j), image[j]);
  }

  /** From its start on, a program's frame is its file and the process's own writes. */
  lemma FilePlusOwnWrites(s: State, e: Step, p: int, image: seq<byte>, u: State, steps: seq<Step>, j: int)
    requires s.Good() && Possible(s, e) && Loads(s, e, p, image) && u == Go(s, e)
    requires 0 <= j < |image| && ImageOffset(j) < FRAME && Follows(u, steps) && NeverHalts(u, steps, p)
    ensures Read(System.Run(u, steps).mem, FrameBase(p) + ImageOffset(j)) ==
            After(OwnWrites(u, steps, p), ImageOffset(j), image[j])
  {
    ProgramHeld(s, e, p, image);
    HeldProgramRuns(u, p, image, steps, j);
  }

  /** No run changes anything below 8 MB outside video memory. */
  lemma {:induction false} KernelUntouched(s: State, steps: seq<Step>, a: int)
    requires s.Good() && Follows(s, steps) && 0 <= a < 0x800000 && !InVideo(a)
    ensures Read(System.Run(s, steps).mem, a) == Read(s.mem, a)
    decreases |steps|
  {
    if steps != [] {
      TouchedRange(s, steps[0]);
      StepStays(s, steps[0], a);
      KernelUntouched(Go(s, steps[0]), steps[1..], a);
    }
  }

  // ----- The missing check -----

  /** Whatever memory holds, the step leaves the kernel's page as it is. */
  ghost predicate KeepsKernel(s: State, e: Step)
    requires s.Good() && Callable(s.procs, e)
  {
    forall m: map<int, byte>, a :: InKernelPage(a) ==> Read(Next(s.(mem := m), e).mem, a) == Read(m, a)
  }

  /** A copy into the kernel's page goes on from there upwards. */
  lemma {:induction false} LandingsPassed(p: Pages, pid: int, va: int, bytes: seq<byte>, a: int)
    requires Maps(p, pid) && InKernelPage(a) && a < va <= 0x800000
    ensures forall l :: l in Landings(p, va, bytes) ==> l.at != a
    decreases |bytes|
  {
    if bytes != [] {
      KernelReach(p, pid, va);
      if Translate(p, va, false).Some? {
        LandingsPassed(p, pid, va + 1, bytes[1..], a);
      }
    }
  }

  lemma FillOverwrites(s: State, p: Pages, va: int, bytes: seq<byte>)
    requires s.Drawable() && Maps(p, s.procs.main) && InKernelPage(va) && bytes != []
    ensures Read(LandAll(s, Landings(p, va, bytes)).mem, va) == bytes[0]
  {
    var rest := FirstLanding(p, s.procs.main, va, bytes);
    LandFirst(s, va, bytes[0], rest, Landings(p, va, bytes));
  }

  lemma FirstLanding(p: Pages, pid: int, va: int, bytes: seq<byte>) returns (rest: seq<Landing>)
    requires Maps(p, pid) && InKernelPage(va) && bytes != []
    ensures Landings(p, va, bytes) == [Landing(va, bytes[0])] + rest && forall l :: l in rest ==> l.at != va
  {
    KernelReach(p, pid, va);
    LandingsPassed(p, pid, va + 1, bytes[1..], va);
    rest := Landings(p, va + 1, bytes[1..]);
  }

  lemma LandFirst(s: State, a: int, b: byte, rest: seq<Landing>, all: seq<Landing>)
    requires s.Drawable() && InKernelPage(a) && (forall l :: l in rest ==> l.at != a) && all == [Landing(a, b)] + rest
    ensures Read(LandAll(s, all).mem, a) == b
  {
    assert all[1..] == rest;
    LandElsewhere(Land(s, a, b), rest, a);
  }

  /** Bytes copied into the kernel's page lie there one after the other, as far as the page goes. */
  lemma {:induction false} KernelCopyLies(s: State, p: Pages, va: int, bytes: seq<byte>, j: int)
    requires s.Drawable() && Maps(p, s.procs.main) && InKernelPage(va) && 0 <= j < |bytes| && va + j < 0x800000
    ensures Read(LandAll(s, Landings(p, va, bytes)).mem, va + j) == bytes[j]
    decreases |bytes|
  {
    if j == 0 {
      FillOverwrites(s, p, va, bytes);
    } else {
      KernelLanding(p, s.procs.main, va, bytes);
      FirstThenRest(s, Landing(va, bytes[0]), Landings(p, va + 1, bytes[1..]), Landings(p, va, bytes));
      var t := Land(s, va, bytes[0]);
      KernelCopyLies(t, p, va + 1, bytes[1..], j - 1);
    }
  }

  lemma KernelLanding(p: Pages, pid: int, va: int, bytes: seq<byte>)
    requires Maps(p, pid) && InKernelPage(va) && bytes != []
    ensures Landings(p, va, bytes) == [Landing(va, bytes[0])] + Landings(p, va + 1, bytes[1..])
  {
    KernelReach(p, pid, va);
  }

  lemma FirstThenRest(s: State, l: Landing, rest: seq<Landing>, all: seq<Landing>)
    requires s.Drawable() && all == [l] + rest
    ensures LandAll(s, all) == LandAll(Land(s, l.at, l.b), rest)
  {
    assert all[1..] == rest;
  }

  /** All of a text that does not fit its array, and its NUL, is found behind it. */
  lemma SpillLies(s: State, at: int, text: seq<byte>, j: int)
    requires s.Good() && 0 <= at && InKernelPage(at + ROOM) && |text| >= ROOM && 0 <= j <= |text| - ROOM && at + ROOM + j < 0x800000
    ensures Read(Spill(s, at, text).mem, at + ROOM + j) == CharAt(text, ROOM + j)
  {
    KernelCopyLies(s, s.pages, at + ROOM, Excess(text), j);
  }

  /** What does not fit its array is found behind it. */
  lemma SpillOverwrites(s: State, at: int, text: seq<byte>)
    requires s.Good() && InKernelPage(at + ROOM) && 0 <= at && |text| >= ROOM
    ensures Read(Spill(s, at, text).mem, at + ROOM) == Excess(text)[0]
  {
    FillOverwrites(s, s.pages, at + ROOM, Excess(text));
  }

  /** The first byte too many of a command, the argument's counting first, and where it goes. */
  function Overrun(at: Arrays, c: Command): (int, byte)
    requires !Fits(c)
  {
    if |c.argument| >= ROOM then (at.argument + ROOM, Excess(c.argument)[0]) else (at.name + ROOM, Excess(c.name)[0])
  }

  lemma CopyOverruns(s: State, at: Arrays, c: Command)
    requires s.Good() && at.Placed() && !Fits(c)
    ensures Read(CopyCommand(s, at, c).mem, Overrun(at, c).0) == Overrun(at, c).1
  {
    if |c.argument| >= ROOM {
      SpillGood(s, at.name, c.name);
      ArgumentLies(at, c, Spill(s, at.name, c.name));
    } else {
      NameOverruns(s, at, c, Spill(s, at.name, c.name));
    }
  }

  lemma SpillGood(s: State, at: int, text: seq<byte>)
    requires s.Good() && 0 <= at
    ensures Spill(s, at, text).Good()
  {
  }

  lemma ArgumentLies(at: Arrays, c: Command, t: State)
    requires t.Good() && at.Placed() && |c.argument| >= ROOM
    ensures Read(Spill(t, at.argument, c.argument).mem, at.argument + ROOM) == Excess(c.argument)[0]
  {
    SpillOverwrites(t, at.argument, c.argument);
  }

  lemma NameOverruns(s: State, at: Arrays, c: Command, t: State)
    requires s.Good() && at.Placed() && |c.name| >= ROOM && t == Spill(s, at.name, c.name)
    ensures Read(t.mem, at.name + ROOM) == Excess(c.name)[0]
  {
    SpillOverwrites(s, at.name, c.name);
  }

  /** Loading a program leaves the kernel's page alone. */
  lemma LaunchKeeps(s: State, image: Option<seq<byte>>, a: int)
    requires s.Good() && (image.Some? ==> |image.value| <= IMAGE_LIMIT) && InKernelPage(a)
    ensures Read(Launch(s, image).mem, a) == Read(s.mem, a)
  {
    LaunchLoads(s, image);
    if image.Some? && Pick(s.procs) < 6 {
      LoadedStays(s.pages, s.mem, Pick(s.procs), image.value, a);
    }
  }

  lemma StartOverwrites(s: State, at: Arrays, c: Command, image: Option<seq<byte>>)
    requires s.Good() && at.Placed() && !Fits(c) && (image.Some? ==> |image.value| <= IMAGE_LIMIT)
    ensures Read(Launch(CopyCommand(s, at, c), image).mem, Overrun(at, c).0) == Overrun(at, c).1
  {
    CopyOverruns(s, at, c);
    LaunchKeeps(CopyCommand(s, at, c), image, Overrun(at, c).0);
  }

  /** Where a step that does not spare the kernel writes first, and what. */
  function Overwriting(s: State, e: Step): (int, byte)
    requires s.Good() && Callable(s.procs, e) && !SparesKernel(s, e)
  {
    match e
    case Fill(va, bytes) => (va, bytes[0])
    case GetArgs(va, n) => (va, s.args[0])
    case Vidmap(ptr) => (ptr, VIDMAP_BYTES[0])
    case Start(command, at, _) => Overrun(at, command)
  }

  /** A step that does not spare the kernel puts that byte there. */
  lemma Overwritten(s: State, e: Step)
    requires s.Good() && Callable(s.procs, e) && !SparesKernel(s, e)
    ensures var (a, b) := Overwriting(s, e); InKernelPage(a) && Read(Next(s, e).mem, a) == b
  {
    match e
    case Start(command, at, image) => StartOverwrites(s, at, command, image);
    case Fill(va, bytes) => FillOverwrites(s, s.pages, va, bytes);
    case GetArgs(va, n) => FillOverwrites(s, s.pages, va, s.args + [NUL]);
    case Vidmap(ptr) =>
      VidmapFixed(s.pages, s.procs.main);
      FillOverwrites(s.(pages := OpenVidmap(s.pages)), OpenVidmap(s.pages), ptr, VIDMAP_BYTES);
    case _ =>
  }

  /**
   A step leaves the kernel's page, its own variables apart, as it is exactly when it gives no
   system call a buffer there and no command too long for its arrays.
   */
  lemma KernelKeptIff(s: State, e: Step)
    requires s.Good() && Callable(s.procs, e)
    ensures KeepsKernel(s, e) <==> SparesKernel(s, e)
  {
    if SparesKernel(s, e) {
      forall m: map<int, byte>, a | InKernelPage(a)
        ensures Read(Next(s.(mem := m), e).mem, a) == Read(m, a)
      {
        KernelPageKept(s.(mem := m), e, a);
      }
    } else {
      var (a, b) := Overwriting(s, e);
      var m: map<int, byte> := map[a := if b == 0 then 1 else 0];
      Overwritten(s.(mem := m), e);
      assert Overwriting(s.(mem := m), e) == (a, b);
      assert Read(Next(s.(mem := m), e).mem, a) != Read(m, a);
    }
  }

  lemma KernelPageKept(s: State, e: Step, a: int)
    requires s.Good() && Possible(s, e) && InKernelPage(a)
    ensures Read(Next(s, e).mem, a) == Read(s.mem, a)
  {
    TouchedRange(s, e);
    StepStays(s, e, a);
  }

  /** Reading a byte to the start of the kernel's page replaces what is there; the page table can be reached as well. */
  lemma KernelPageOverwritten(s: State, b: byte)
    requires s.Good()
    ensures Read(Next(s, Fill(0x400000, [b])).mem, 0x400000) == b
    ensures Read(Next(s, Fill(s.pages.tableAt, [b])).mem, s.pages.tableAt) == b
  {
    Overwritten(s, Fill(0x400000, [b]));
    Overwritten(s, Fill(s.pages.tableAt, [b]));
  }

  /** An argument of 128 characters puts its NUL behind `arg_buf`, even if there is no program of that name. */
  lemma ArgumentOverruns(s: State, at: Arrays, c: Command)
    requires s.Good() && at.Placed() && c.Parsed() && |c.argument| == 128
    ensures Read(Next(s, Start(c, at, None)).mem, at.argument + 128) == NUL
  {
    StartOverwrites(s, at, c, None);
  }

  /** So whatever lay there is lost. */
  lemma LongCommandsOverwrite(s: State, at: Arrays, c: Command, image: Option<seq<byte>>)
    requires s.Good() && Callable(s.procs, Start(c, at, image)) && (|c.argument| >= 128 || |c.name| >= 128)
    ensures !KeepsKernel(s, Start(c, at, image))
  {
    KernelKeptIff(s, Start(c, at, image));
  }

  /** No line typed at a terminal does that: it is too short. */
  lemma TypedCommandsFit(s: State, line: seq<byte>, at: Arrays, image: Option<seq<byte>>)
    requires s.Good() && NulFree(line) && |line| <= 127 && Callable(s.procs, Start(Parse(line), at, image))
    ensures KeepsKernel(s, Start(Parse(line), at, image))
  {
    ShortLineFits(line);
    KernelKeptIff(s, Start(Parse(line), at, image));
  }
}
