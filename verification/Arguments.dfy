/**
 The argument of a command, from `execute` to the program that asks for it.  The kernel keeps
 one argument for all terminals, so a program gets its own only if no other program or shell
 is started before it asks.
 */
module Arguments {
  import opened Bytes
  import opened CommandLine
  import opened Terminal
  import opened Processes
  import opened Paging
  import opened System
  import opened Isolation
  import opened SystemRead

  /** The step goes through `execute`: for a command, for a shell that halts, or for a terminal visited first. */
  predicate Executes(s: State, e: Step)
    requires s.Good()
  {
    match e
    case Start(_, _, _) => true
    case Finish(_) => s.procs.main < 3
    case Display(t, _) => 0 <= t < 3 && s.procs.active != t && s.procs.curr[t] == NOBODY
    case _ => false
  }

  /** The argument of the command it executes; a shell has none. */
  function ArgumentOf(e: Step): seq<byte> { if e.Start? then e.command.argument else [] }

  lemma BeginArgs(s: State, image: seq<byte>)
    requires s.Formed() && |image| <= IMAGE_LIMIT && (Pick(s.procs) == 6 ==> 0 <= s.Turn())
    ensures Begin(s, image).args == s.args
  {
  }

  lemma CopyArgs(s: State, at: Arrays, c: Command)
    requires s.Good() && at.Placed()
    ensures CopyCommand(s, at, c).Good() && CopyCommand(s, at, c).args == c.argument
  {
  }

  lemma LaunchArgs(s: State, image: Option<seq<byte>>)
    requires s.Good() && (image.Some? ==> |image.value| <= IMAGE_LIMIT)
    ensures Launch(s, image).args == s.args
  {
    if image.Some? {
      BeginArgs(s, image.value);
    }
  }

  lemma SwitchArgs(s: State, t: int, shell: seq<byte>)
    requires s.Good() && 0 <= t < 3 && |shell| <= IMAGE_LIMIT
    ensures SwitchTo(s, t, shell).args == if s.procs.active != t && s.procs.curr[t] == NOBODY then [] else s.args
  {
    if s.procs.active != t && s.procs.curr[t] == NOBODY {
      FirstVisit(s.procs.(active := t));
      BeginArgs(s.(procs := s.procs.(active := t), args := []), shell);
    }
  }

  /**
   `execute` leaves its command's argument with the kernel, whether there is such a program and
   room for it or not, and nothing else changes the argument.
   */
  lemma ArgumentKept(s: State, e: Step)
    requires s.Good() && Callable(s.procs, e)
    ensures Next(s, e).args == if Executes(s, e) then ArgumentOf(e) else s.args
  {
    match e
    case Start(c, at, image) =>
      CopyArgs(s, at, c);
      LaunchArgs(CopyCommand(s, at, c), image);
    case Display(t, shell) => SwitchArgs(s, t, shell);
    case Finish(_) =>
    case _ =>
  }

  /** No program and no shell is started during the run. */
  predicate NothingExecuted(s: State, steps: seq<Step>)
    requires s.Good() && Follows(s, steps)
    decreases |steps|
  {
    steps == [] || (!Executes(s, steps[0]) && NothingExecuted(Go(s, steps[0]), steps[1..]))
  }

  lemma {:induction false} ArgumentStays(s: State, steps: seq<Step>)
    requires s.Good() && Follows(s, steps) && NothingExecuted(s, steps)
    ensures System.Run(s, steps).args == s.args
    decreases |steps|
  {
    if steps != [] {
      ArgumentKept(s, steps[0]);
      ArgumentStays(Go(s, steps[0]), steps[1..]);
    }
  }

  /** Byte `j` of the argument and of the NUL behind it. */
  lemma ArgsArrive(s: State, va: int, n: int, j: int)
    requires s.Good() && n != 0 && s.args != [] && PROGRAM_PAGE <= va && 0 <= j <= |s.args| && va + j < PROGRAM_PAGE + FRAME
    ensures Read(ArgsCall(s, va, n).mem, FrameBase(s.procs.main) + (va - PROGRAM_PAGE) + j) == CharAt(s.args, j)
  {
    FilledArrive(s, va, s.args + [NUL], j);
  }

  /**
   After `execute` and any run in which nothing else is executed, `getargs` puts the command's
   argument, byte for byte and with its NUL, where the running process asks for it.
   */
  lemma ArgumentArrives(s: State, e: Step, u: State, steps: seq<Step>, v: State, va: int, n: int, j: int)
    requires s.Good() && Possible(s, e) && e.Start? && u == Go(s, e) && e.command.argument != []
    requires Follows(u, steps) && NothingExecuted(u, steps) && v == System.Run(u, steps)
    requires n != 0 && 0 <= j <= |e.command.argument| && PROGRAM_PAGE <= va && va + j < PROGRAM_PAGE + FRAME
    ensures Read(ArgsCall(v, va, n).mem, FrameBase(v.procs.main) + (va - PROGRAM_PAGE) + j) == CharAt(e.command.argument, j)
  {
    ArgumentKept(s, e);
    ArgumentStays(u, steps);
    ArgsArrive(v, va, n, j);
  }

  // ----- Another terminal's shell takes the argument away -----

  /** Terminal 0 is in front and runs slot `p`; terminals 1 and 2 have never been visited. */
  predicate OnlyFirst(procs: Procs, p: int)
    requires procs.Basic()
  {
    procs.Slots() == 6 && procs.main == p && procs.active == 0 && procs.owner[0] == 0 && procs.curr == [p, NOBODY, NOBODY]
  }

  lemma BootedOnlyFirst(tableAt: int, screens: seq<Term>, shell: seq<byte>)
    requires Setup(tableAt).Shaped() && PowerOn(tableAt, screens).AllScreens() && |shell| <= IMAGE_LIMIT
    ensures var s := Boot(tableAt, screens, shell); OnlyFirst(s.procs, 0) && s.procs.owner[3] == FREE
  {
    FirstVisit(Initial(6));
  }

  /** The first program takes slot 3. */
  lemma FirstProgram(s: Procs)
    requires s.Basic() && OnlyFirst(s, 0) && s.owner[3] == FREE && s.owner[1] == s.owner[2] == FREE
    ensures Pick(s) == 3 && OnlyFirst(Processes.Step(s, Exec), 3)
  {
    assert Usable(s.owner, 0, 3);
    assert forall j :: 0 <= j < 3 ==> !Usable(s.owner, 0, j);
    ExecuteBasic(s);
  }

  /** A first visit of terminal 1 and a tick, and the program of terminal 0 runs again. */
  lemma VisitAndTick(s: Procs, u: Procs)
    requires s.Basic() && OnlyFirst(s, 3) && u == Processes.Step(s, Show(1))
    ensures u.main == 1 && u.curr == [3, 1, NOBODY] && Processes.Step(u, Timer).main == 3
  {
    FirstVisit(s.(active := 1));
    assert u.owner[1] == 1;
  }

  lemma ProgramStarted(s: State, e: Step, u: State)
    requires s.Good() && OnlyFirst(s.procs, 0) && s.procs.owner[3] == FREE
    requires Possible(s, e) && e.Start? && e.image.Some? && u == Go(s, e)
    ensures OnlyFirst(u.procs, 3) && u.args == e.command.argument
  {
    FirstProgram(s.procs);
    StepProcs(s, e);
    ArgumentKept(s, e);
  }

  lemma TerminalVisited(u: State, d: Step, v: State, t: Step)
    requires u.Good() && OnlyFirst(u.procs, 3) && Possible(u, d) && d == Display(1, []) && v == Go(u, d) && t == Tick
    ensures Possible(v, t) && Go(v, t).procs.main == 3 && Go(v, t).args == []
  {
    StepProcs(u, d);
    VisitAndTick(u.procs, v.procs);
    ArgumentKept(u, d);
    StepProcs(v, t);
    ArgumentKept(v, t);
  }

  lemma OneStepLeads(v: State, t: Step) returns (w: State)
    requires v.Good() && Possible(v, t)
    ensures w == Go(v, t) && System.Leads(v, [t], w)
  {
    w := Go(v, t);
    System.LeadFirst(v, [t], t, [], w, w);
  }

  lemma LostSteps(u: State, d: Step, t: Step) returns (w: State)
    requires u.Good() && OnlyFirst(u.procs, 3) && d == Display(1, []) && t == Tick
    ensures System.Leads(u, [d, t], w) && w.procs.main == 3 && w.args == []
  {
    TerminalVisited(u, d, Go(u, d), t);
    w := OneStepLeads(Go(u, d), t);
    System.LeadFirst(u, [d, t], d, [t], Go(u, d), w);
  }

  /**
   From boot: a program is started with an argument, terminal 1 is shown for the first time and
   the timer ticks.  The program runs again, but its argument is gone and `getargs` fails.
   */
  lemma ArgumentLost(tableAt: int, screens: seq<Term>, shell: seq<byte>, e: Step, va: int, n: int)
    requires Setup(tableAt).Shaped() && PowerOn(tableAt, screens).AllScreens() && |shell| <= IMAGE_LIMIT
    requires Possible(Boot(tableAt, screens, shell), e) && e.Start? && e.image.Some? && 0 <= va
    ensures var u := Go(Boot(tableAt, screens, shell), e);
            && u.procs.main == 3 && u.args == e.command.argument
            && Follows(u, [Display(1, []), Tick])
            && var w := System.Run(u, [Display(1, []), Tick]); w.procs.main == 3 && ArgsCall(w, va, n) == w
  {
    var s := Boot(tableAt, screens, shell);
    BootedOnlyFirst(tableAt, screens, shell);
    ProgramStarted(s, e, Go(s, e));
    var w := LostSteps(Go(s, e), Display(1, []), Tick);
  }
}
