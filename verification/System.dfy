/**
 The kernel as one state machine: the process table, three terminals that know nothing of
 each other, the page tables, and the physical memory outside video memory and the kernel's
 own variables.  Each system call, key, timer tick and user-mode store is one step; a system
 call that fills a buffer writes wherever the caller's pointer leads in kernel mode, and a
 command too long for the kernel's arrays goes on behind them.
 */
module System {
  import opened Bytes
  import opened CommandLine
  import opened Terminal
  import opened Processes
  import opened Ancestry
  import opened Paging

  const IMAGE_AT := 0x08048000
  /** The longest file: 1023 blocks. */
  const IMAGE_LIMIT := 0x3FF000

  /** "Max processes.\n" */
  const MAX_PROCESSES_TEXT: seq<byte> := [77, 97, 120, 32, 112, 114, 111, 99, 101, 115, 115, 101, 115, 46, 10]

  /** `args` is the argument of the last command, which the kernel keeps for `getargs`. */
  datatype State = State(procs: Procs, screens: seq<Term>, pages: Pages, mem: map<int, byte>, args: seq<byte>) {
    predicate Good() {
      && procs.Basic() && Kin(procs) && procs.curr[procs.active] != NOBODY
      && AllScreens()
      && Maps(pages, procs.main)
    }

    /** What the steps below need to make sense. */
    predicate Formed() {
      procs.Basic() && procs.Slots() == 6 && AllScreens() && pages.Shaped()
    }

    predicate Drawable() {
      AllScreens() && 0 <= procs.active < 3
    }

    predicate AllScreens() {
      |screens| == 3 && screens[0].Valid() && screens[1].Valid() && screens[2].Valid()
    }

    /** What terminal `t` shows, whether it is displayed or not. */
    function Screen(t: int): (u: Term)
      requires Good() && 0 <= t < 3
      ensures u.Valid()
    {
      screens[t]
    }

    /** The terminal of the running process. */
    function Turn(): int
      requires procs.Basic()
    {
      procs.owner[procs.main]
    }
  }

  /** Where the kernel copies a command to: the name onto its stack, the argument into `arg_buf` below. */
  datatype Arrays = Arrays(name: int, argument: int) {
    predicate Placed() {
      0x400000 <= argument && argument + ROOM < name && name + ROOM < 0x800000
    }
  }

  /** `Start` carries the command as parsed, and the program of that name, if there is one. */
  datatype Step =
    | Start(command: Command, at: Arrays, image: Option<seq<byte>>)
    | Finish(shell: seq<byte>)
    | Display(terminal: int, shell: seq<byte>)
    | Tick
    | Write(text: seq<byte>)
    | Type(c: byte)
    | Rub
    | Store(va: int, b: byte)
    | Fill(va: int, bytes: seq<byte>)
    | GetArgs(va: int, n: int)
    | Vidmap(ptr: int)

  /** What the code accepts, or is given, in a table as it should be. */
  predicate Callable(procs: Procs, e: Step)
    requires procs.Basic()
  {
    match e
    case Start(command, at, image) => command.Parsed() && at.Placed() && (image.Some? ==> |image.value| <= IMAGE_LIMIT)
    case Finish(shell) => Allowed(procs, Exit) && |shell| <= IMAGE_LIMIT
    case Display(t, shell) => 0 <= t < 3 && |shell| <= IMAGE_LIMIT
    case Store(va, b) => 0 <= va < 0x1_0000_0000
    case Fill(va, bytes) => 0 <= va < 0x1_0000_0000
    case GetArgs(va, n) => 0 <= va < 0x1_0000_0000
    case Vidmap(ptr) => 0 <= ptr < 0x1_0000_0000
    case _ => true
  }

  /**
   The checks the code lacks: no system call is given a buffer in the kernel's own page, and
   no command has a name or an argument too long for its array.
   */
  predicate SparesKernel(s: State, e: Step) {
    match e
    case Start(command, _, _) => Fits(command)
    case Fill(va, bytes) => bytes == [] || !InKernelPage(va)
    case GetArgs(va, n) => n == 0 || s.args == [] || !InKernelPage(va)
    case Vidmap(ptr) => ptr == 0x400000 || !InKernelPage(ptr)
    case _ => true
  }

  /** Steps that runs follow: after one that overwrites the kernel nothing can be said. */
  predicate Possible(s: State, e: Step)
    requires s.Good()
  {
    Callable(s.procs, e) && SparesKernel(s, e)
  }

  // ----- Memory -----

  function Read(mem: map<int, byte>, a: int): byte { if a in mem then mem[a] else NUL }

  /** Memory after bytes have arrived there. */
  function Deposit(mem: map<int, byte>, ls: seq<Landing>): map<int, byte>
    decreases |ls|, mem
  {
    if ls == [] then mem else Deposit(mem[ls[0].at := ls[0].b], ls[1..])
  }

  /** The kernel copies a program to `va` through the tables, up to the first byte that faults. */
  function Load(p: Pages, mem: map<int, byte>, va: int, image: seq<byte>): map<int, byte>
    requires p.Shaped() && 0 <= va
  {
    Deposit(mem, Landings(p, va, image))
  }

  /** A byte stored into video memory changes the terminal shown on that page, if any. */
  function Paint(screens: seq<Term>, active: int, offset: int, b: byte): (u: seq<Term>)
    requires |screens| == 3 && 0 <= active < 3 && 0 <= offset < 0x4000
    requires screens[0].Valid() && screens[1].Valid() && screens[2].Valid()
    ensures |u| == 3 && u[0].Valid() && u[1].Valid() && u[2].Valid()
  {
    var cell := offset % 0x1000;
    var page := offset / 0x1000;
    var t := if page == 0 then active else page - 1;
    if cell % 2 == 1 || 4000 <= cell || (page != 0 && t == active) then screens
    else screens[t := screens[t].(grid := screens[t].grid[cell / 2 := b])]
  }

  // ----- Steps -----

  /** Starts a program in the displayed terminal, or tells the running process there is no slot. */
  function Begin(s: State, image: seq<byte>): State
    requires s.Formed() && |image| <= IMAGE_LIMIT && (Pick(s.procs) == 6 ==> 0 <= s.Turn())
  {
    var i := Pick(s.procs);
    if i == 6 then
      s.(screens := s.screens[s.Turn() := PutAll(s.screens[s.Turn()], MAX_PROCESSES_TEXT)])
    else
      var pages := MapPage(s.pages, FrameBase(i), PROGRAM_PAGE);
      s.(procs := Execute(s.procs), pages := pages, mem := Load(pages, s.mem, IMAGE_AT, image))
  }

  /** Ends the running process and returns to its parent; a shell is loaded and started again. */
  function End(s: State, shell: seq<byte>): State
    requires s.Formed() && Allowed(s.procs, Exit) && |shell| <= IMAGE_LIMIT
  {
    var next := Halt(s.procs);
    var home := if s.procs.main < 3 then s.procs.main else s.procs.parent[s.procs.main];
    var pages := MapPage(s.pages, FrameBase(home), PROGRAM_PAGE);
    if s.procs.main < 3 then s.(procs := next, pages := pages, mem := Load(pages, s.mem, IMAGE_AT, shell), args := [])
    else s.(procs := next, pages := pages)
  }

  function SwitchTo(s: State, t: int, shell: seq<byte>): State
    requires s.Formed() && 0 <= t < 3 && |shell| <= IMAGE_LIMIT
  {
    if s.procs.active == t then s
    else if s.procs.curr[t] == NOBODY then FirstVisit(s.procs.(active := t)); Begin(s.(procs := s.procs.(active := t), args := []), shell)
    else s.(procs := s.procs.(active := t))
  }

  /** Where the processes of terminal `t` find their screen. */
  function ScreenPage(active: int, t: int): int {
    if t == active then VIDEO else VIDEO + 0x1000 * (1 + t)
  }

  function TimerTick(s: State): State
    requires s.Formed()
  {
    var next := NextTask(s.procs);
    if next == -1 then s
    else
      var screen := ScreenPage(s.procs.active, s.procs.owner[next]);
      s.(procs := s.procs.(main := next), pages := MapVid(MapPage(s.pages, FrameBase(next), PROGRAM_PAGE), screen))
  }

  /** A byte arrives at a physical address. */
  function Land(s: State, a: int, b: byte): (u: State)
    requires s.Drawable()
    ensures u.Drawable() && u.procs == s.procs && u.pages == s.pages && u.args == s.args
  {
    if InVideo(a) then s.(screens := Paint(s.screens, s.procs.active, a - VIDEO, b))
    else s.(mem := s.mem[a := b])
  }

  function LandAll(s: State, ls: seq<Landing>): (u: State)
    requires s.Drawable()
    ensures u.Drawable() && u.procs == s.procs && u.pages == s.pages && u.args == s.args
    decreases |ls|, s
  {
    if ls == [] then s else LandAll(Land(s, ls[0].at, ls[0].b), ls[1..])
  }

  function UserStore(s: State, va: int, b: byte): State
    requires s.Formed() && 0 <= va < 0x1_0000_0000
  {
    match Translate(s.pages, va, true)
    case None => s
    case Some(a) => Land(s, a, b)
  }

  /** The kernel copies bytes to `va` on behalf of the running process. */
  function FillFrom(s: State, va: int, bytes: seq<byte>): (u: State)
    requires s.Formed() && 0 <= va
    ensures u.Formed() && u.procs == s.procs && u.pages == s.pages && u.args == s.args
  {
    LandAll(s, Landings(s.pages, va, bytes))
  }

  /** What `read` does with the caller's buffer; a null pointer is refused. */
  function FillBuffer(s: State, va: int, bytes: seq<byte>): State
    requires s.Formed() && 0 <= va
  {
    if va == 0 then s else FillFrom(s, va, bytes)
  }

  /** `getargs`: the whole argument and its closing NUL, whatever the size given, unless that is 0. */
  function ArgsCall(s: State, va: int, n: int): State
    requires s.Formed() && 0 <= va
  {
    if va == 0 || n == 0 || s.args == [] then s else FillFrom(s, va, s.args + [NUL])
  }

  /** What does not fit an array at `at` goes on behind it. */
  function Spill(s: State, at: int, text: seq<byte>): (u: State)
    requires s.Formed() && 0 <= at
    ensures u.Formed() && u.procs == s.procs && u.pages == s.pages && u.args == s.args
    ensures |text| < ROOM ==> u == s
  {
    FillFrom(s, at + ROOM, Excess(text))
  }

  /** The copying of a command, which comes before every check. */
  function CopyCommand(s: State, at: Arrays, c: Command): (u: State)
    requires s.Formed() && at.Placed()
    ensures u.Formed() && u.procs == s.procs && u.pages == s.pages
    ensures Fits(c) ==> u == s.(args := c.argument)
  {
    Spill(Spill(s, at.name, c.name), at.argument, c.argument).(args := c.argument)
  }

  /** `execute` after that: fails without a program of that name. */
  function Launch(s: State, image: Option<seq<byte>>): State
    requires s.Formed() && (image.Some? ==> |image.value| <= IMAGE_LIMIT && (Pick(s.procs) == 6 ==> 0 <= s.Turn()))
  {
    match image
    case None => s
    case Some(i) => Begin(s, i)
  }

  /** The vidmap page's address, lowest byte first. */
  const VIDMAP_BYTES: seq<byte> := [0x00, 0x00, 0x80, 0x08]

  /** Opens the vidmap page and stores its address through the caller's pointer. */
  function VidmapCall(s: State, ptr: int): State
    requires s.Formed() && 0 <= ptr
  {
    if ptr == 0 || ptr == 0x400000 then s
    else FillFrom(s.(pages := OpenVidmap(s.pages)), ptr, VIDMAP_BYTES)
  }

  function OnScreen(s: State, t: int, term: Term): State
    requires |s.screens| == 3 && 0 <= t < 3
  {
    s.(screens := s.screens[t := term])
  }

  function Next(s: State, e: Step): State
    requires s.Good() && Callable(s.procs, e)
  {
    match e
    case Start(command, at, image) => Launch(CopyCommand(s, at, command), image)
    case Finish(shell) => End(s, shell)
    case Display(t, shell) => SwitchTo(s, t, shell)
    case Tick => TimerTick(s)
    case Write(text) => OnScreen(s, s.Turn(), PutAll(s.screens[s.Turn()], text))
    case Type(c) => OnScreen(s, s.procs.active, PutChar(s.screens[s.procs.active], c))
    case Rub => OnScreen(s, s.procs.active, Terminal.Backspace(s.screens[s.procs.active]))
    case Store(va, b) => UserStore(s, va, b)
    case Fill(va, bytes) => FillBuffer(s, va, bytes)
    case GetArgs(va, n) => ArgsCall(s, va, n)
    case Vidmap(ptr) => VidmapCall(s, ptr)
  }

  // ----- Steps that write to memory -----

  /** A step by which the running process writes to memory, itself or through the kernel. */
  predicate Writing(e: Step) { e.Store? || e.Fill? || e.GetArgs? || e.Vidmap? }

  /** The page tables a writing step uses, and where its bytes arrive. */
  function TablesOf(s: State, e: Step): Pages
    requires s.Good()
  {
    if e.Vidmap? && e.ptr != 0 && e.ptr != 0x400000 then OpenVidmap(s.pages) else s.pages
  }

  function Arrivals(s: State, e: Step): seq<Landing>
    requires s.Good() && Callable(s.procs, e)
  {
    match e
    case Store(va, b) => (match Translate(s.pages, va, true) case None => [] case Some(a) => [Landing(a, b)])
    case Fill(va, bytes) => if va == 0 then [] else Landings(s.pages, va, bytes)
    case GetArgs(va, n) => if va == 0 || n == 0 || s.args == [] then [] else Landings(s.pages, va, s.args + [NUL])
    case Vidmap(ptr) => if ptr == 0 || ptr == 0x400000 then [] else Landings(OpenVidmap(s.pages), ptr, VIDMAP_BYTES)
    case _ => []
  }

  lemma WritingLands(s: State, e: Step)
    requires s.Good() && Callable(s.procs, e) && Writing(e)
    ensures Next(s, e) == LandAll(s.(pages := TablesOf(s, e)), Arrivals(s, e))
  {
    if e.Store? && Translate(s.pages, e.va, true).Some? {
      OneLands(s, Translate(s.pages, e.va, true).value, e.b);
    }
  }

  lemma OneLands(s: State, a: int, b: byte)
    requires s.Drawable()
    ensures LandAll(s, [Landing(a, b)]) == Land(s, a, b)
  {
    assert [Landing(a, b)][1..] == [];
  }

  // ----- What every step keeps -----

  lemma NextTaskLives(s: Procs)
    requires s.Basic() && Kin(s) && NextTask(s) != -1
    ensures 0 <= s.owner[NextTask(s)] < 3
  {
    var t :| 0 <= t < 3 && s.curr[t] == NextTask(s);
    assert Front(s, t);
  }

  lemma ExecuteOpen(s: Procs)
    requires s.Basic() && Kin(s)
    ensures var u := Execute(s); u.Basic() && Kin(u) && u.active == s.active && u.curr[u.active] != NOBODY
    ensures if Pick(s) == 6 then Execute(s) == s else Execute(s).main == Pick(s)
  {
    ExecuteKin(s);
    if s.owner[s.active] == FREE {
      FirstVisit(s);
    }
  }

  lemma BeginGood(s: State, image: seq<byte>)
    requires s.procs.Basic() && Kin(s.procs) && |image| <= IMAGE_LIMIT && s.AllScreens() && Maps(s.pages, s.procs.main)
    ensures Begin(s, image).Good()
  {
    ExecuteOpen(s.procs);
    if Pick(s.procs) == 6 {
      RefusedGood(s, Begin(s, image));
    } else {
      MapsProgram(s.pages, Pick(s.procs));
    }
  }

  lemma RefusedGood(s: State, u: State)
    requires s.procs.Basic() && Kin(s.procs) && s.procs.curr[s.procs.active] != NOBODY && Maps(s.pages, s.procs.main)
    requires s.AllScreens() && u.AllScreens() && u.procs == s.procs && u.pages == s.pages
    ensures u.Good()
  {
  }

  lemma EndGood(s: State, shell: seq<byte>)
    requires s.Good() && Callable(s.procs, Finish(shell))
    ensures End(s, shell).Good()
  {
    StepKin(s.procs, Exit);
    if s.procs.main < 3 {
      ShellReturns(s.procs);
      MapsProgram(s.pages, s.procs.main);
    } else {
      MapsProgram(s.pages, s.procs.parent[s.procs.main]);
    }
  }

  lemma SwitchGood(s: State, t: int, shell: seq<byte>)
    requires s.Good() && Callable(s.procs, Display(t, shell))
    ensures SwitchTo(s, t, shell).Good()
  {
    var shown := s.procs.(active := t);
    SameKin(s.procs, shown);
    if s.procs.active != t && s.procs.curr[t] == NOBODY {
      BeginGood(s.(procs := shown), shell);
    }
  }

  lemma TickGood(s: State)
    requires s.Good()
    ensures TimerTick(s).Good()
  {
    TickKin(s.procs);
    if NextTask(s.procs) != -1 {
      NextTaskLives(s.procs);
      MapsProgram(s.pages, NextTask(s.procs));
    }
  }

  lemma VidmapFixed(p: Pages, pid: int)
    requires Maps(p, pid)
    ensures Maps(OpenVidmap(p), pid)
  {
  }

  lemma LaunchGood(s: State, image: Option<seq<byte>>)
    requires s.Good() && (image.Some? ==> |image.value| <= IMAGE_LIMIT)
    ensures Launch(s, image).Good()
  {
    if image.Some? {
      BeginGood(s, image.value);
    }
  }

  lemma VidmapGood(s: State, ptr: int)
    requires s.Good() && 0 <= ptr
    ensures VidmapCall(s, ptr).Good()
  {
    VidmapFixed(s.pages, s.procs.main);
  }

  lemma NextGood(s: State, e: Step)
    requires s.Good() && Callable(s.procs, e)
    ensures Next(s, e).Good()
  {
    match e
    case Start(command, at, image) => LaunchGood(CopyCommand(s, at, command), image);
    case Finish(shell) => EndGood(s, shell);
    case Display(t, shell) => SwitchGood(s, t, shell);
    case Tick => TickGood(s);
    case Store(va, b) =>
    case Fill(va, bytes) =>
    case GetArgs(va, n) =>
    case Vidmap(ptr) => VidmapGood(s, ptr);
    case Write(text) =>
    case Type(c) =>
    case Rub =>
  }

  // ----- Whole runs -----

  function Go(s: State, e: Step): (u: State)
    requires s.Good() && Possible(s, e)
    ensures u.Good()
  {
    NextGood(s, e);
    Next(s, e)
  }

  predicate Follows(s: State, steps: seq<Step>)
    requires s.Good()
    decreases |steps|
  {
    steps == [] || (Possible(s, steps[0]) && Follows(Go(s, steps[0]), steps[1..]))
  }

  function Run(s: State, steps: seq<Step>): (u: State)
    requires s.Good() && Follows(s, steps)
    ensures u.Good()
    decreases |steps|
  {
    if steps == [] then s else Run(Go(s, steps[0]), steps[1..])
  }

  /** The run of `steps` from `s` ends in `u`. */
  predicate Leads(s: State, steps: seq<Step>, u: State) {
    s.Good() && Follows(s, steps) && Run(s, steps) == u
  }

  lemma LeadOne(s: State, e: Step, rest: seq<Step>, u: State, v: State)
    requires s.Good() && Possible(s, e) && u == Go(s, e) && Leads(u, rest, v)
    ensures Leads(s, [e] + rest, v)
  {
    var all := [e] + rest;
    assert all[0] == e && all[1..] == rest;
    LeadFirst(s, all, e, rest, u, v);
  }

  lemma LeadFirst(s: State, all: seq<Step>, e: Step, rest: seq<Step>, u: State, v: State)
    requires all != [] && all[0] == e && all[1..] == rest
    requires s.Good() && Possible(s, e) && u == Go(s, e) && Leads(u, rest, v)
    ensures Leads(s, all, v)
  {
  }

  /** Three terminals as they are found, no process yet, paging just set up. */
  function PowerOn(tableAt: int, screens: seq<Term>): State {
    State(Initial(6), screens, Setup(tableAt), map[], [])
  }

  lemma BootGood(tableAt: int, screens: seq<Term>, shell: seq<byte>)
    requires PowerOn(tableAt, screens).pages.Shaped() && PowerOn(tableAt, screens).AllScreens()
    requires |shell| <= IMAGE_LIMIT
    ensures Pick(Initial(6)) == 0 && Begin(PowerOn(tableAt, screens), shell).Good()
  {
    FirstVisit(Initial(6));
    BootKin();
    SetupFixed(tableAt);
    MapsProgram(Setup(tableAt), 0);
  }

  function Boot(tableAt: int, screens: seq<Term>, shell: seq<byte>): (s: State)
    requires Setup(tableAt).Shaped() && PowerOn(tableAt, screens).AllScreens() && |shell| <= IMAGE_LIMIT
    ensures s.Good() && s.screens == screens
  {
    BootGood(tableAt, screens, shell);
    Begin(PowerOn(tableAt, screens), shell)
  }

  // ----- The process table inside the system -----

  /** What a step means to the process table. */
  function EventOf(e: Step): Option<Event> {
    match e
    case Start(_, _, image) => if image.Some? then Some(Exec) else None
    case Finish(_) => Some(Exit)
    case Display(t, _) => Some(Show(t))
    case Tick => Some(Timer)
    case _ => None
  }

  function Events(steps: seq<Step>): seq<Event> {
    if steps == [] then []
    else match EventOf(steps[0])
      case None => Events(steps[1..])
      case Some(v) => [v] + Events(steps[1..])
  }

  lemma BeginProcs(s: State, image: seq<byte>)
    requires s.Formed() && |image| <= IMAGE_LIMIT && (Pick(s.procs) == 6 ==> 0 <= s.Turn())
    ensures Begin(s, image).procs == Execute(s.procs)
  {
  }

  lemma LaunchProcs(s: State, image: Option<seq<byte>>)
    requires s.Good() && (image.Some? ==> |image.value| <= IMAGE_LIMIT)
    ensures Launch(s, image).procs == if image.Some? then Execute(s.procs) else s.procs
  {
    if image.Some? {
      BeginProcs(s, image.value);
    }
  }

  lemma SwitchProcs(s: State, t: int, shell: seq<byte>)
    requires s.Good() && Callable(s.procs, Display(t, shell))
    ensures SwitchTo(s, t, shell).procs == Switch(s.procs, t)
  {
    var shown := s.procs.(active := t);
    if s.procs.active != t && s.procs.curr[t] == NOBODY {
      FirstVisit(shown);
      BeginProcs(s.(procs := shown, args := []), shell);
    }
  }

  lemma StepProcs(s: State, e: Step)
    requires s.Good() && Possible(s, e)
    ensures match EventOf(e)
            case None => Go(s, e).procs == s.procs
            case Some(v) => Allowed(s.procs, v) && Go(s, e).procs == Processes.Step(s.procs, v)
  {
    match e
    case Start(command, at, image) => LaunchProcs(CopyCommand(s, at, command), image);
    case Display(t, shell) => SwitchProcs(s, t, shell);
    case _ =>
  }

  /** The process table of the system runs exactly as the process table alone. */
  lemma {:induction false} RunProcs(s: State, steps: seq<Step>)
    requires s.Good() && Follows(s, steps)
    ensures Obeys(s.procs, Events(steps)) && Run(s, steps).procs == Processes.Run(s.procs, Events(steps))
    decreases |steps|
  {
    if steps != [] {
      StepProcs(s, steps[0]);
      RunProcs(Go(s, steps[0]), steps[1..]);
      if EventOf(steps[0]).Some? {
        assert Events(steps)[1..] == Events(steps[1..]);
      }
    }
  }
}
