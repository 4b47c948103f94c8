/**
 The vidmap page and the terminals: where it is aimed, which steps leave it aimed at another
 terminal than the running process's own, and what a store through it then does.
 */
module VideoAim {
  import opened Bytes
  import opened Terminal
  import opened Processes
  import opened Ancestry
  import opened Paging
  import opened System
  import opened Screens

  /** The vidmap page lies on the screen of the terminal whose process runs. */
  predicate Fresh(s: State)
    requires s.Good()
  {
    s.pages.table[0] == ScreenPage(s.procs.active, s.Turn()) + USER_RW
  }

  lemma TurnIn(s: State)
    requires s.Good()
    ensures 0 <= s.Turn() < 3
  {
  }

  /** A store that reaches video memory does so on the own terminal's screen page iff the vidmap page is aimed there. */
  lemma OwnTerminalIff(s: State, va: int, b: byte, l: Landing)
    requires s.Good() && Callable(s.procs, Store(va, b)) && Arrivals(s, Store(va, b)) == [l] && InVideo(l.at)
    ensures ShownOn(s.procs.active, (l.at - VIDEO) / 0x1000) == s.Turn() <==> Fresh(s)
  {
    UserReach(s.pages, s.procs.main, va);
    TurnIn(s);
  }

  /** The running process's terminal is the displayed one. */
  predicate InFront(s: State)
    requires s.Good()
  {
    s.Turn() == s.procs.active
  }

  /**
   The steps after which a well-aimed vidmap page is still well aimed: a started program needs
   the page of the displayed terminal, a terminal shown again must not be the running
   process's own, and nor must the one it replaces.
   */
  predicate KeepsAim(s: State, e: Step)
    requires s.Good()
  {
    match e
    case Start(_, _, image) => image.None? || Pick(s.procs) == 6 || InFront(s)
    case Display(t, _) =>
      0 <= t < 3 &&
      (t == s.procs.active || (if s.procs.curr[t] == NOBODY then InFront(s) else !InFront(s) && s.Turn() != t))
    case Vidmap(ptr) => ptr == 0 || ptr == 0x400000 || InFront(s)
    case _ => true
  }

  /** Whenever the timer hands over the CPU, the vidmap page follows the new process's terminal. */
  lemma TickAims(s: State)
    requires s.Good() && NextTask(s.procs) != -1
    ensures Fresh(Go(s, Tick))
  {
  }

  lemma StartAim(s: State, e: Step)
    requires s.Good() && Possible(s, e) && Fresh(s) && e.Start?
    ensures Fresh(Go(s, e)) <==> KeepsAim(s, e)
  {
    TurnIn(s);
  }

  lemma FinishAim(s: State, e: Step)
    requires s.Good() && Possible(s, e) && Fresh(s) && e.Finish?
    ensures Fresh(Go(s, e))
  {
    if s.procs.main < 3 {
      ShellReturns(s.procs);
    } else {
      assert ParentLives(s.procs, s.procs.main);
    }
  }

  lemma DisplayAim(s: State, e: Step)
    requires s.Good() && Possible(s, e) && Fresh(s) && e.Display?
    ensures Fresh(Go(s, e)) <==> KeepsAim(s, e)
  {
    TurnIn(s);
    if s.procs.active != e.terminal && s.procs.curr[e.terminal] == NOBODY {
      FirstVisit(s.procs.(active := e.terminal));
    }
  }

  lemma VidmapAim(s: State, e: Step)
    requires s.Good() && Possible(s, e) && Fresh(s) && e.Vidmap?
    ensures Fresh(Go(s, e)) <==> KeepsAim(s, e)
  {
    TurnIn(s);
  }

  /** A step leaves a well-aimed vidmap page well aimed exactly in these cases. */
  lemma AimKeptIff(s: State, e: Step)
    requires s.Good() && Possible(s, e) && Fresh(s)
    ensures Fresh(Go(s, e)) <==> KeepsAim(s, e)
  {
    match e
    case Start(_, _, _) => StartAim(s, e);
    case Finish(_) => FinishAim(s, e);
    case Display(_, _) => DisplayAim(s, e);
    case Vidmap(_) => VidmapAim(s, e);
    case Tick => if NextTask(s.procs) != -1 { TickAims(s); }
    case _ =>
  }

  // ----- Whole runs -----

  /** No step of the run turns a well-aimed vidmap page away. */
  predicate KeepsAimAll(s: State, steps: seq<Step>)
    requires s.Good() && Follows(s, steps)
    decreases |steps|
  {
    steps == [] || (KeepsAim(s, steps[0]) && KeepsAimAll(Go(s, steps[0]), steps[1..]))
  }

  /** The page is well aimed at every point of the run. */
  predicate FreshThroughout(s: State, steps: seq<Step>)
    requires s.Good() && Follows(s, steps)
    decreases |steps|
  {
    Fresh(s) && (steps == [] || FreshThroughout(Go(s, steps[0]), steps[1..]))
  }

  /** The page stays well aimed throughout a run exactly if every step of it keeps the aim. */
  lemma {:induction false} RunAimIff(s: State, steps: seq<Step>)
    requires s.Good() && Follows(s, steps) && Fresh(s)
    ensures FreshThroughout(s, steps) <==> KeepsAimAll(s, steps)
    decreases |steps|
  {
    if steps != [] {
      AimKeptIff(s, steps[0]);
      if Fresh(Go(s, steps[0])) {
        RunAimIff(Go(s, steps[0]), steps[1..]);
      }
    }
  }

  // ----- A store on the wrong terminal -----

  const BACK_AND_FORTH: seq<Step> := [Display(1, []), Display(0, [])]

  /** Terminal 0 is in front with its shell; terminal 1 has never been visited. */
  predicate JustBooted(s: State)
    requires s.Good()
  {
    s.procs.main == 0 && s.procs.active == 0 && s.procs.owner[0] == 0 && s.procs.curr[1] == NOBODY
  }

  /** The shell of terminal 1 runs, terminal 0 is displayed, and the vidmap page is the screen's. */
  predicate Misaimed(s: State)
    requires s.Good()
  {
    s.procs.main == 1 && s.Turn() == 1 && s.procs.active == 0 && VidmapOnScreen(s)
  }

  lemma OpenedVidmap(s: State, at: int)
    requires s.Good() && JustBooted(s) && at / 0x400000 == 32
    ensures var u := Go(s, Vidmap(at)); JustBooted(u) && VidmapOnScreen(u) && u.screens == s.screens
  {
    VidmapFixed(s.pages, s.procs.main);
    Unseen(s, Vidmap(at));
  }

  /** Writing to the own program page shows on no terminal. */
  lemma Unseen(s: State, e: Step)
    requires s.Good() && Possible(s, e) && Quiet(e) && Writing(e)
    ensures Go(s, e).screens == s.screens
  {
    UnseenOn(s, e, 0);
    UnseenOn(s, e, 1);
    UnseenOn(s, e, 2);
    ThreeSame(Go(s, e).screens, s.screens);
  }

  lemma UnseenOn(s: State, e: Step, t: int)
    requires s.Good() && Possible(s, e) && Quiet(e) && Writing(e) && 0 <= t < 3
    ensures Go(s, e).screens[t] == s.screens[t]
  {
    QuietWriting(s, e, t);
    WritingOps(s, e, t);
  }

  lemma ThreeSame(a: seq<Term>, b: seq<Term>)
    requires |a| == |b| == 3 && a[0] == b[0] && a[1] == b[1] && a[2] == b[2]
    ensures a == b
  {
  }

  predicate VidmapOnScreen(s: State)
    requires s.Good()
  {
    s.pages.dir[34] == s.pages.tableAt + USER_RW && s.pages.table[0] == VIDEO + USER_RW
  }

  lemma ShellStarted(s: State, d: Step)
    requires s.Good() && JustBooted(s) && VidmapOnScreen(s) && d == Display(1, [])
    ensures var u := Go(s, d);
            && u.procs.main == 1 && u.procs.active == 1 && u.Turn() == 1 && u.procs.curr[0] != NOBODY
            && VidmapOnScreen(u) && u.screens == s.screens
  {
    FirstVisit(s.procs.(active := 1));
  }

  lemma BackToFirst(s: State, e: Step) returns (u: State)
    requires s.Good() && s.procs.main == 1 && s.procs.active == 1 && s.Turn() == 1 && s.procs.curr[0] != NOBODY && VidmapOnScreen(s)
    requires e == Display(0, [])
    ensures System.Leads(s, [e], u) && Misaimed(u) && u.screens == s.screens
  {
    u := Go(s, e);
    System.LeadFirst(s, [e], e, [], u, u);
  }

  lemma VisitAndBack(s: State, d: Step, e: Step) returns (u: State)
    requires s.Good() && JustBooted(s) && VidmapOnScreen(s) && d == Display(1, []) && e == Display(0, [])
    ensures System.Leads(s, [d, e], u) && Misaimed(u) && u.screens == s.screens
  {
    ShellStarted(s, d);
    u := BackToFirst(Go(s, d), e);
    System.LeadFirst(s, [d, e], d, [e], Go(s, d), u);
  }

  /** From boot: open the vidmap page, visit terminal 1, come back: the page is aimed at the wrong terminal. */
  lemma WrongRun(s: State, at: int) returns (u: State)
    requires s.Good() && JustBooted(s) && at / 0x400000 == 32
    ensures System.Leads(s, [Vidmap(at)] + BACK_AND_FORTH, u) && Misaimed(u) && u.screens == s.screens
  {
    OpenedVidmap(s, at);
    u := VisitAndBack(Go(s, Vidmap(at)), Display(1, []), Display(0, []));
    System.LeadOne(s, Vidmap(at), BACK_AND_FORTH, Go(s, Vidmap(at)), u);
  }

  /** There a store by the process of terminal 1 paints terminal 0. */
  lemma WrongTerminalPainted(s: State, b: byte)
    requires s.Good() && Misaimed(s)
    ensures !Fresh(s)
    ensures var u := Go(s, Store(VIDMAP_PAGE, b));
            u.screens == [s.screens[0].(grid := s.screens[0].grid[0 := b]), s.screens[1], s.screens[2]]
  {
    ScreenBehindVidmap(s.pages, VIDMAP_PAGE);
    StoreOnScreen(s, VIDMAP_PAGE, b);
  }

  lemma ScreenBehindVidmap(p: Pages, va: int)
    requires Fixed(p) && va == VIDMAP_PAGE && p.dir[34] == p.tableAt + USER_RW && p.table[0] == VIDEO + USER_RW
    ensures Translate(p, va, true) == Some(VIDEO)
  {
    assert va / 0x400000 == 34 && va / 0x1000 % 1024 == 0;
    ThroughOpenTable(p, va);
  }

  lemma StoreOnScreen(s: State, va: int, b: byte)
    requires s.Formed() && 0 <= va < 0x1_0000_0000 && Translate(s.pages, va, true) == Some(VIDEO) && s.procs.active == 0
    ensures UserStore(s, va, b).screens == [s.screens[0].(grid := s.screens[0].grid[0 := b]), s.screens[1], s.screens[2]]
  {
  }

  /** The machine as it boots is where that run starts. */
  lemma BootedThere(tableAt: int, screens: seq<Term>, shell: seq<byte>)
    requires Setup(tableAt).Shaped() && PowerOn(tableAt, screens).AllScreens() && |shell| <= IMAGE_LIMIT
    ensures JustBooted(Boot(tableAt, screens, shell))
  {
    FirstVisit(Initial(6));
  }

  /**
   A whole run from boot at whose end a process paints another terminal than its own: open the
   vidmap page with a pointer into the program page, visit terminal 1, come back, store.
   */
  lemma WrongTerminal(tableAt: int, screens: seq<Term>, shell: seq<byte>, at: int, b: byte)
    requires Setup(tableAt).Shaped() && PowerOn(tableAt, screens).AllScreens() && |shell| <= IMAGE_LIMIT
    requires at / 0x400000 == 32
    ensures var s := Boot(tableAt, screens, shell);
            && Follows(s, [Vidmap(at)] + BACK_AND_FORTH) && System.Run(s, [Vidmap(at)] + BACK_AND_FORTH).Turn() == 1
            && Go(System.Run(s, [Vidmap(at)] + BACK_AND_FORTH), Store(VIDMAP_PAGE, b)).screens ==
               [screens[0].(grid := screens[0].grid[0 := b]), screens[1], screens[2]]
  {
    BootedThere(tableAt, screens, shell);
    var u := WrongRun(Boot(tableAt, screens, shell), at);
    WrongTerminalPainted(u, b);
  }
}
