/**
 The kernel: process table, console and page tables together, every system call, key, tick
 and user-mode store proved to take the step `System.Go` prescribes.
 */
module Kernel {
  import opened Bytes
  import opened CommandLine
  import opened Terminal
  import opened Processes
  import opened Ancestry
  import opened Paging
  import opened System
  import opened ProcessTable
  import opened Display
  import opened Mmu

  /** What three fresh terminals show when terminal 0 is displayed. */
  function FoundScreens(video: seq<byte>): (screens: seq<Term>)
    requires |video| == 0x4000
    ensures PowerOn(0x400000, screens).AllScreens()
  {
    [Term(Chars(video, 0), 0, 0), Term(Chars(video, 2), 0, 0), Term(Chars(video, 3), 0, 0)]
  }

  class Machine {
    const table: Table
    const console: Console
    const mmu: PageTables
    var mem: map<int, byte>
    /** `arg_buf`, as far as its closing NUL. */
    var argBuf: seq<byte>

    /** The parts are well formed and share no memory. */
    ghost predicate Linked()
      reads this, table, table.processNum, table.currTask, table.parentPid
      reads console, console.vram, mmu, mmu.pageDir, mmu.pageTable
    {
      && table.Shaped() && table.Abs().Basic() && console.Valid() && mmu.Valid()
      && {table.processNum, table.currTask, table.parentPid} !! {mmu.pageDir, mmu.pageTable}
      && console.vram as object !in {table.processNum, table.currTask, table.parentPid, mmu.pageDir, mmu.pageTable}
    }

    ghost function Abs(): State
      requires Linked()
      reads this, table, table.processNum, table.currTask, table.parentPid
      reads console, console.vram, mmu, mmu.pageDir, mmu.pageTable
    {
      var a := table.activeTerminal;
      State(table.Abs(), [console.Screen(a, 0), console.Screen(a, 1), console.Screen(a, 2)], mmu.Abs(), mem, argBuf)
    }

    ghost predicate Valid()
      reads this, table, table.processNum, table.currTask, table.parentPid
      reads console, console.vram, mmu, mmu.pageDir, mmu.pageTable
    {
      Linked() && Abs().Good()
    }

    /** Boots with terminal 0 displayed and its shell running; video memory is taken as found. */
    constructor (tableAt: int, video: array<byte>, shell: seq<byte>)
      requires Setup(tableAt).Shaped() && video.Length == 0x4000 && |shell| <= IMAGE_LIMIT
      modifies video
      ensures Valid()
      ensures Abs() == Boot(tableAt, FoundScreens(old(video[..])), shell)
    {
      table := new Table();
      console := new Console(video);
      mmu := new PageTables(tableAt);
      mem, argBuf := map[], [];
      new;
      ghost var screens := FoundScreens(old(video[..]));
      BootGood(tableAt, screens, shell);
      assert Linked();
      assert Abs().screens == screens;
      assert Abs() == PowerOn(tableAt, screens);
      StartProgram(shell);
    }

    /** Copies a program to its place through the page tables. */
    method LoadImage(image: seq<byte>)
      requires Linked() && |image| <= IMAGE_LIMIT
      modifies this`mem
      ensures mem == Load(mmu.Abs(), old(mem), IMAGE_AT, image)
    {
      ghost var pages, rest := mmu.Abs(), image;
      var i := 0;
      while i < |image|
        invariant 0 <= i <= |image| && rest == image[i..] && mmu.Abs() == pages
        invariant Load(pages, old(mem), IMAGE_AT, image) == Load(pages, mem, IMAGE_AT + i, rest)
      {
        NextLanding(pages, IMAGE_AT + i, rest);
        rest := rest[1..];
        var at := mmu.Resolve(IMAGE_AT + i, false);
        if at == None { return; }
        mem := mem[at.value := image[i]];
        i := i + 1;
      }
    }

    /** Aims the program page at the frame of `pid` and loads a program there. */
    method LoadProgram(pid: int, image: seq<byte>)
      requires Linked() && |image| <= IMAGE_LIMIT
      modifies this`mem, mmu.pageDir
      ensures Linked()
      ensures var pages := MapPage(old(mmu.Abs()), FrameBase(pid), PROGRAM_PAGE);
              Abs() == old(Abs()).(pages := pages, mem := Load(pages, old(mem), IMAGE_AT, image))
    {
      mmu.MapPage(FrameBase(pid), PROGRAM_PAGE);
      LoadImage(image);
    }

    method Print(t: int, text: seq<byte>)
      requires Linked() && 0 <= t < 3
      modifies console, console.vram
      ensures Linked() && Abs() == OnScreen(old(Abs()), t, PutAll(old(Abs()).screens[t], text))
    {
      console.MyPuts(table.activeTerminal, t, text);
    }

    method TakeProcess() returns (slot: int)
      requires Linked()
      modifies table, table.processNum, table.currTask, table.parentPid
      ensures Linked() && slot == Pick(old(table.Abs()))
      ensures Abs() == old(Abs()).(procs := Processes.Execute(old(table.Abs())))
    {
      ExecuteBasic(table.Abs());
      slot := table.Execute();
    }

    /** The part of `system_execute` behind its checks. */
    method StartProgram(image: seq<byte>)
      requires Linked() && |image| <= IMAGE_LIMIT
      requires Pick(table.Abs()) == 6 ==> 0 <= table.Abs().owner[table.mainProcess]
      modifies this`mem, table, table.processNum, table.currTask, table.parentPid
      modifies console, console.vram, mmu.pageDir
      ensures Linked() && Abs() == Begin(old(Abs()), image)
    {
      var turn := table.processNum[table.mainProcess];
      var slot := TakeProcess();
      if slot == 6 {
        Print(turn, MAX_PROCESSES_TEXT);
      } else {
        LoadProgram(slot, image);
      }
    }

    /** Copies the rest of a name or argument that does not fit its array. */
    method SpillOver(at: int, text: seq<byte>, ghost s: State)
      requires Linked() && 0 <= at && Abs() == s && s.Formed()
      modifies this`mem, console.vram
      ensures Linked() && Abs() == Spill(s, at, text)
    {
      if |text| >= ROOM {
        CopyOut(at + ROOM, text[ROOM..] + [NUL]);
      }
    }

    /** The parsing of `system_execute`: name and argument are copied before anything is checked. */
    method TakeCommand(command: seq<byte>, at: Arrays, ghost s: State)
      requires Linked() && NulFree(command) && at.Placed() && Abs() == s && s.Formed()
      modifies this, console.vram
      ensures Linked() && Abs() == CopyCommand(s, at, Parse(command))
    {
      var name, argument := ParseCommand(command);
      CopyParsed(name, argument, at, s);
    }

    method CopyParsed(name: seq<byte>, argument: seq<byte>, at: Arrays, ghost s: State)
      requires Linked() && at.Placed() && Abs() == s && s.Formed()
      modifies this, console.vram
      ensures Linked() && Abs() == CopyCommand(s, at, Command(name, argument))
    {
      SpillOver(at.name, name, s);
      SpillOver(at.argument, argument, Spill(s, at.name, name));
      KeepArgument(argument);
    }

    method KeepArgument(argument: seq<byte>)
      requires Linked()
      modifies this`argBuf
      ensures Linked() && Abs() == old(Abs()).(args := argument)
    {
      argBuf := argument;
    }

    /** `system_execute` in a state `s`: copies the command, and starts the program of that name, if there is one. */
    method SystemExecute(command: seq<byte>, at: Arrays, image: Option<seq<byte>>, ghost s: State) returns (r: int)
      requires Linked() && NulFree(command) && at.Placed() && (image.Some? ==> |image.value| <= IMAGE_LIMIT)
      requires Abs() == s && s.Formed() && (Pick(s.procs) == 6 ==> 0 <= s.Turn())
      modifies this, table, table.processNum, table.currTask, table.parentPid
      modifies console, console.vram, mmu.pageDir
      ensures Linked() && Abs() == Launch(CopyCommand(s, at, Parse(command)), image) && r == if image.None? then -1 else 0
    {
      TakeCommand(command, at, s);
      if image == None { return -1; }
      StartProgram(image.value);
      r := 0;
    }

    /** `system_halt`: back to the parent's memory, or the terminal's shell loaded anew. */
    method SystemHalt(shell: seq<byte>)
      requires Linked() && Allowed(table.Abs(), Exit) && |shell| <= IMAGE_LIMIT
      modifies this, table, table.processNum, table.currTask, table.parentPid, mmu.pageDir
      ensures Linked() && Abs() == End(old(Abs()), shell)
    {
      var pid := table.mainProcess;
      var parent := table.parentPid[pid];
      ReleaseProcess();
      if pid < 3 {
        argBuf := [];
        LoadProgram(pid, shell);
      } else {
        mmu.MapPage(FrameBase(parent), PROGRAM_PAGE);
      }
    }

    method ReleaseProcess()
      requires Linked() && Allowed(table.Abs(), Exit)
      modifies table, table.processNum, table.currTask, table.parentPid
      ensures Linked() && Abs() == old(Abs()).(procs := Processes.Halt(old(table.Abs())))
    {
      table.Halt();
    }

    /** Displays terminal `t`: exchanges the pages, and starts a shell on the first visit. */
    method SwitchTerminal(t: int, shell: seq<byte>)
      requires Linked() && 0 <= t < 3 && |shell| <= IMAGE_LIMIT
      modifies this, table, table.processNum, table.currTask, table.parentPid
      modifies console, console.vram, mmu.pageDir
      ensures Linked() && Abs() == SwitchTo(old(Abs()), t, shell)
    {
      if table.activeTerminal == t { return; }
      ShowPage(t);
      if table.currTask[t] == NOBODY {
        FirstVisit(table.Abs());
        argBuf := [];
        StartProgram(shell);
      } else {
        console.screenX := console.xs[t];
        console.screenY := console.ys[t];
      }
    }

    method ShowPage(t: int)
      requires Linked() && 0 <= t < 3 && table.activeTerminal != t
      modifies table, console.vram
      ensures Linked() && Abs() == old(Abs()).(procs := old(table.Abs()).(active := t))
    {
      console.ExchangePages(table.activeTerminal, t);
      table.SetActive(t);
    }

    /** One timer interrupt. */
    method SchedulerHandler()
      requires Linked()
      modifies table, mmu.pageDir, mmu.pageTable
      ensures Linked() && Abs() == TimerTick(old(Abs()))
    {
      var next := HandOver();
      if next == -1 { return; }
      mmu.MapPage(FrameBase(next), PROGRAM_PAGE);
      mmu.MapVid(ScreenPage(table.activeTerminal, table.processNum[next]));
    }

    method HandOver() returns (next: int)
      requires Linked()
      modifies table
      ensures Linked() && next == NextTask(old(table.Abs()))
      ensures Abs() == old(Abs()).(procs := Processes.Tick(old(table.Abs())))
    {
      next := table.SwitchTask();
    }

    /** `terminal_write`: the running process prints in its own terminal, on descriptor 1 only. */
    method TerminalWrite(fd: int, text: seq<byte>) returns (r: int)
      requires Linked() && 0 <= Abs().Turn()
      modifies console, console.vram
      ensures Linked() && r == if fd == 1 then |text| else -1
      ensures Abs() == if fd != 1 then old(Abs())
                       else OnScreen(old(Abs()), old(Abs()).Turn(), PutAll(old(Abs()).screens[old(Abs()).Turn()], text))
    {
      if fd != 1 { return -1; }
      Print(table.processNum[table.mainProcess], text);
      r := |text|;
    }

    method EchoKey(c: byte)
      requires Linked()
      modifies console, console.vram
      ensures Linked() && Abs() == OnScreen(old(Abs()), table.activeTerminal, PutChar(old(Abs()).screens[table.activeTerminal], c))
    {
      console.KeyPutc(table.activeTerminal, c);
    }

    method EraseKey()
      requires Linked()
      modifies console, console.vram
      ensures Linked() && Abs() == OnScreen(old(Abs()), table.activeTerminal, Terminal.Backspace(old(Abs()).screens[table.activeTerminal]))
    {
      console.Backspace(table.activeTerminal);
    }

    /** A store by the running user program. */
    method UserStore(va: int, b: byte)
      requires Linked() && 0 <= va < 0x1_0000_0000
      modifies this`mem, console.vram
      ensures Linked() && Abs() == System.UserStore(old(Abs()), va, b)
    {
      var at := mmu.Resolve(va, true);
      if at.Some? {
        PutByte(at.value, b);
      }
    }

    method PutByte(at: int, b: byte)
      requires Linked()
      modifies this`mem, console.vram
      ensures Linked() && Abs() == Land(old(Abs()), at, b)
    {
      if InVideo(at) {
        DrawByte(at - VIDEO, b);
      } else {
        mem := mem[at := b];
      }
    }

    /** The kernel copies bytes one by one to an address of the running program, as the page tables say. */
    method CopyOut(va: int, bytes: seq<byte>)
      requires Linked() && 0 <= va
      modifies this`mem, console.vram
      ensures Linked() && Abs() == FillFrom(old(Abs()), va, bytes)
      decreases |bytes|
    {
      if bytes != [] && va < 0x1_0000_0000 {
        NextLands(Abs(), mmu.Abs(), va, bytes);
        var at := mmu.Resolve(va, false);
        if at.Some? {
          PutByte(at.value, bytes[0]);
          CopyOut(va + 1, bytes[1..]);
        }
      }
    }

    /** How `read` fills the caller's buffer: only a null pointer is refused. */
    method FillBuffer(va: int, bytes: seq<byte>) returns (r: int)
      requires Linked() && 0 <= va < 0x1_0000_0000
      modifies this`mem, console.vram
      ensures Linked() && Abs() == System.FillBuffer(old(Abs()), va, bytes) && (r == -1 <==> va == 0)
    {
      if va == 0 { return -1; }
      CopyOut(va, bytes);
      r := 0;
    }

    method DrawByte(offset: int, b: byte)
      requires Linked() && 0 <= offset < 0x4000
      modifies console.vram
      ensures Linked() && Abs() == old(Abs()).(screens := Paint(old(Abs()).screens, table.activeTerminal, offset, b))
    {
      ghost var before := console.vram[..];
      console.vram[offset] := b;
      DrawnAll(before, table.activeTerminal, console.xs, console.ys, offset, b);
      assert console.vram[..] == before[offset := b];
    }

    /** `system_getargs`: the argument and its closing NUL, whatever the size of the buffer. */
    method SystemGetArgs(va: int, n: int) returns (r: int)
      requires Linked() && 0 <= va < 0x1_0000_0000
      modifies this`mem, console.vram
      ensures Linked() && Abs() == ArgsCall(old(Abs()), va, n)
      ensures r == if va == 0 || n == 0 || old(argBuf) == [] then -1 else 0
    {
      if va == 0 || n == 0 { return -1; }
      if argBuf == [] { return -1; }
      CopyOut(va, argBuf + [NUL]);
      r := 0;
    }

    /** `system_vidmap`: opens the vidmap page and stores its address through the caller's pointer. */
    method SystemVidmap(ptr: int) returns (r: int)
      requires Linked() && 0 <= ptr < 0x1_0000_0000
      modifies this`mem, console.vram, mmu.pageDir, mmu.pageTable
      ensures Linked() && Abs() == VidmapCall(old(Abs()), ptr) && r == if ptr == 0 || ptr == 0x400000 then -1 else 0
    {
      if ptr == 0 || ptr == 0x400000 { return -1; }
      OpenPage();
      CopyOut(ptr, VIDMAP_BYTES);
      r := 0;
    }

    method OpenPage()
      requires Linked()
      modifies mmu.pageDir, mmu.pageTable
      ensures Linked() && Abs() == old(Abs()).(pages := OpenVidmap(old(mmu.Abs())))
    {
      var virt := mmu.GetVidmapPage();
      assert virt == 0x8800000 && LittleEndian(VIDMAP_BYTES) == virt;
    }

    /** Any sequence of steps whatever. */
    method RunAll(steps: seq<Step>)
      requires Valid() && Follows(Abs(), steps)
      modifies this, table, table.processNum, table.currTask, table.parentPid
      modifies console, console.vram, mmu.pageDir, mmu.pageTable
      ensures Valid() && Abs() == System.Run(old(Abs()), steps)
      decreases |steps|
    {
      if steps != [] {
        Dispatch(steps[0]);
        RunAll(steps[1..]);
      }
    }

    /** The step from `s` to `u`. */
    method Advance(e: Step, ghost s: State, ghost u: State)
      requires Valid() && Abs() == s && Possible(s, e) && u == Go(s, e)
      modifies this, table, table.processNum, table.currTask, table.parentPid
      modifies console, console.vram, mmu.pageDir, mmu.pageTable
      ensures Linked() && Abs() == u
    {
      Dispatch(e);
    }

    method Dispatch(e: Step)
      requires Valid() && Possible(Abs(), e)
      modifies this, table, table.processNum, table.currTask, table.parentPid
      modifies console, console.vram, mmu.pageDir, mmu.pageTable
      ensures Valid() && Abs() == Go(old(Abs()), e)
    {
      NextGood(Abs(), e);
      match e
      case Start(command, at, image) =>
        ParseText(command);
        var _ := SystemExecute(Text(command), at, image, Abs());
      case Finish(shell) => SystemHalt(shell);
      case Display(t, shell) => SwitchTerminal(t, shell);
      case Tick => SchedulerHandler();
      case Write(text) => var _ := TerminalWrite(1, text);
      case Type(c) => EchoKey(c);
      case Rub => EraseKey();
      case Store(va, b) => UserStore(va, b);
      case Fill(va, bytes) => var _ := FillBuffer(va, bytes);
      case GetArgs(va, n) => var _ := SystemGetArgs(va, n);
      case Vidmap(ptr) => var _ := SystemVidmap(ptr);
    }
  }

  /** The first byte of a copy. */
  lemma NextLanding(p: Pages, va: int, bytes: seq<byte>)
    requires p.Shaped() && 0 <= va < 0x1_0000_0000 && bytes != []
    ensures match Translate(p, va, false)
            case None => Landings(p, va, bytes) == []
            case Some(a) => var rest := Landings(p, va + 1, bytes[1..]);
              var all := Landings(p, va, bytes); all != [] && all[0] == Landing(a, bytes[0]) && all[1..] == rest
  {
  }

  lemma NextLands(s: State, p: Pages, va: int, bytes: seq<byte>)
    requires s.Drawable() && p.Shaped() && 0 <= va < 0x1_0000_0000 && bytes != []
    ensures match Translate(p, va, false)
            case None => LandAll(s, Landings(p, va, bytes)) == s
            case Some(a) => LandAll(s, Landings(p, va, bytes)) == LandAll(Land(s, a, bytes[0]), Landings(p, va + 1, bytes[1..]))
  {
    NextLanding(p, va, bytes);
  }

  /** The number four bytes stand for. */
  function LittleEndian(bytes: seq<byte>): int
    requires |bytes| == 4
  {
    bytes[0] as int + 0x100 * bytes[1] as int + 0x1_0000 * bytes[2] as int + 0x100_0000 * bytes[3] as int
  }

  /** The three terminals as video memory and cursors show them. */
  function ScreensOf(video: seq<byte>, active: int, xs: seq<int>, ys: seq<int>): (screens: seq<Term>)
    requires |video| == 0x4000 && 0 <= active < 3 && |xs| == |ys| == 3
    ensures |screens| == 3 && forall t :: 0 <= t < 3 ==> |screens[t].grid| == 2000
  {
    [Term(Chars(video, PageOf(active, 0)), xs[0], ys[0]), Term(Chars(video, PageOf(active, 1)), xs[1], ys[1]),
     Term(Chars(video, PageOf(active, 2)), xs[2], ys[2])]
  }

  lemma DrawnAll(video: seq<byte>, active: int, xs: seq<int>, ys: seq<int>, offset: int, b: byte)
    requires |video| == 0x4000 && 0 <= active < 3 && |xs| == |ys| == 3 && 0 <= offset < 0x4000
    requires forall t :: 0 <= t < 3 ==> 0 <= xs[t] < 80 && 0 <= ys[t] < 25
    ensures ScreensOf(video[offset := b], active, xs, ys) == Paint(ScreensOf(video, active, xs, ys), active, offset, b)
  {
    DrawnChars(video, offset, b, PageOf(active, 0));
    DrawnChars(video, offset, b, PageOf(active, 1));
    DrawnChars(video, offset, b, PageOf(active, 2));
    DrawnScreen(ScreensOf(video, active, xs, ys), active, offset, b, ScreensOf(video[offset := b], active, xs, ys));
  }

  /** What it takes for three screens to be the painted ones. */
  lemma DrawnScreen(screens: seq<Term>, active: int, offset: int, b: byte, now: seq<Term>)
    requires |screens| == |now| == 3 && 0 <= active < 3 && 0 <= offset < 0x4000
    requires screens[0].Valid() && screens[1].Valid() && screens[2].Valid()
    requires forall t :: 0 <= t < 3 ==> now[t] == DrawnTerm(screens[t], PageOf(active, t), offset, b)
    ensures now == Paint(screens, active, offset, b)
  {
    assert offset % 0x1000 % 2 == offset % 2;
  }

  function DrawnTerm(t: Term, page: int, offset: int, b: byte): Term
    requires t.Valid() && 0 <= offset
  {
    if page == offset / 0x1000 && offset % 2 == 0 && offset % 0x1000 < 4000
    then t.(grid := t.grid[offset % 0x1000 / 2 := b]) else t
  }

  /** One byte of video memory changes one cell of its page, or none. */
  lemma DrawnChars(mem: seq<byte>, offset: int, b: byte, page: int)
    requires |mem| == 0x4000 && 0 <= offset < 0x4000 && 0 <= page < 4
    ensures Chars(mem[offset := b], page) ==
            if page == offset / 0x1000 && offset % 2 == 0 && offset % 0x1000 < 4000
            then Chars(mem, page)[offset % 0x1000 / 2 := b] else Chars(mem, page)
  {
    var after := Chars(mem[offset := b], page);
    forall k | 0 <= k < 2000
      ensures after[k] == if offset == 0x1000 * page + 2 * k then b else Chars(mem, page)[k]
    {
    }
  }
}
