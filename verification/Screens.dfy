/**
 The three terminals over whole runs: each shows what its own processes wrote and what was
 typed while it was displayed, in order, as if it were alone; and without erasing and direct
 stores into video memory, that text laid out on paper.
 */
module Screens {
  import opened Bytes
  import opened CommandLine
  import opened Terminal
  import opened Processes
  import opened Paging
  import opened System

  /** Something done to one terminal. */
  datatype Op = Print(text: seq<byte>) | Erase | Dot(cell: nat, b: byte)

  function Apply(t: Term, op: Op): (u: Term)
    requires t.Valid()
    ensures u.Valid()
  {
    match op
    case Print(text) => PutAll(t, text)
    case Erase => Terminal.Backspace(t)
    case Dot(cell, b) => if cell < 2000 then t.(grid := t.grid[cell := b]) else t
  }

  function ApplyAll(t: Term, ops: seq<Op>): (u: Term)
    requires t.Valid()
    ensures u.Valid()
    decreases |ops|
  {
    if ops == [] then t else ApplyAll(Apply(t, ops[0]), ops[1..])
  }

  lemma {:induction false} ApplyConcat(t: Term, a: seq<Op>, b: seq<Op>)
    requires t.Valid()
    ensures ApplyAll(t, a + b) == ApplyAll(ApplyAll(t, a), b)
    decreases |a|
  {
    if a == [] {
      assert a + b == b;
    } else {
      assert (a + b)[1..] == a[1..] + b;
      ApplyConcat(Apply(t, a[0]), a[1..], b);
    }
  }

  /** The terminal shown on a page of video memory, or -1 for the stale page of the displayed one. */
  function ShownOn(active: int, page: int): int {
    if page == 0 then active else if page - 1 == active then -1 else page - 1
  }

  /** What a byte arriving in memory does to terminal `t`. */
  function DotOf(active: int, l: Landing, t: int): seq<Op> {
    var at := l.at - VIDEO;
    if InVideo(l.at) && at % 2 == 0 && at % 0x1000 < 4000 && ShownOn(active, at / 0x1000) == t
    then [Dot(at % 0x1000 / 2, l.b)] else []
  }

  function DotsOf(active: int, ls: seq<Landing>, t: int): seq<Op>
    decreases |ls|, t
  {
    if ls == [] then [] else DotOf(active, ls[0], t) + DotsOf(active, ls[1..], t)
  }

  /** What step `e` does to terminal `t`. */
  function OpsOf(s: State, e: Step, t: int): seq<Op>
    requires s.Good() && Possible(s, e)
  {
    match e
    case Start(_, _, image) => if image.Some? && Pick(s.procs) == 6 && s.Turn() == t then [Print(MAX_PROCESSES_TEXT)] else []
    case Write(text) => if s.Turn() == t then [Print(text)] else []
    case Type(c) => if s.procs.active == t then [Print([c])] else []
    case Rub => if s.procs.active == t then [Erase] else []
    case _ => DotsOf(s.procs.active, Arrivals(s, e), t)
  }

  lemma PutOne(t: Term, c: byte)
    requires t.Valid()
    ensures PutAll(t, [c]) == PutChar(t, c)
  {
    assert PutAll(PutChar(t, c), [c][1..]) == PutChar(t, c);
  }

  lemma ApplyOne(t: Term, op: Op)
    requires t.Valid()
    ensures ApplyAll(t, [op]) == Apply(t, op) && ApplyAll(t, []) == t
  {
    assert [op][1..] == [];
  }

  lemma LandOne(s: State, l: Landing, t: int)
    requires s.Drawable() && 0 <= t < 3
    ensures Land(s, l.at, l.b).screens[t] == ApplyAll(s.screens[t], DotOf(s.procs.active, l, t))
  {
    var at := l.at - VIDEO;
    assert InVideo(l.at) ==> at % 0x1000 % 2 == at % 2;
    ApplyOne(s.screens[t], Dot(if InVideo(l.at) then at % 0x1000 / 2 else 0, l.b));
  }

  lemma {:induction false} DotsShown(s: State, ls: seq<Landing>, t: int)
    requires s.Drawable() && 0 <= t < 3
    ensures LandAll(s, ls).screens[t] == ApplyAll(s.screens[t], DotsOf(s.procs.active, ls, t))
    decreases |ls|
  {
    if ls != [] {
      LandOne(s, ls[0], t);
      DotsShown(Land(s, ls[0].at, ls[0].b), ls[1..], t);
      ApplyConcat(s.screens[t], DotOf(s.procs.active, ls[0], t), DotsOf(s.procs.active, ls[1..], t));
    }
  }

  lemma WritingOps(s: State, e: Step, t: int)
    requires s.Good() && Possible(s, e) && 0 <= t < 3 && Writing(e)
    ensures Go(s, e).Screen(t) == ApplyAll(s.Screen(t), OpsOf(s, e, t))
  {
    WritingLands(s, e);
    DotsShown(s.(pages := TablesOf(s, e)), Arrivals(s, e), t);
  }

  lemma WriteOps(s: State, text: seq<byte>, t: int)
    requires s.Good() && 0 <= t < 3
    ensures Go(s, Write(text)).Screen(t) == ApplyAll(s.Screen(t), OpsOf(s, Write(text), t))
  {
    ApplyOne(s.Screen(t), Print(text));
  }

  lemma BeginShows(s: State, image: seq<byte>)
    requires s.Formed() && |image| <= IMAGE_LIMIT && (Pick(s.procs) == 6 ==> 0 <= s.Turn())
    ensures Begin(s, image).screens ==
            if Pick(s.procs) == 6 then s.screens[s.Turn() := PutAll(s.screens[s.Turn()], MAX_PROCESSES_TEXT)] else s.screens
  {
  }

  /** Only a start without a free slot shows anything. */
  lemma LaunchShows(s: State, image: Option<seq<byte>>)
    requires s.Good() && (image.Some? ==> |image.value| <= IMAGE_LIMIT)
    ensures Launch(s, image).screens ==
            if image.Some? && Pick(s.procs) == 6
            then s.screens[s.Turn() := PutAll(s.screens[s.Turn()], MAX_PROCESSES_TEXT)] else s.screens
  {
    if image.Some? {
      BeginShows(s, image.value);
    }
  }

  lemma StartOps(s: State, c: Command, at: Arrays, image: Option<seq<byte>>, t: int)
    requires s.Good() && Possible(s, Start(c, at, image)) && 0 <= t < 3
    ensures Go(s, Start(c, at, image)).Screen(t) == ApplyAll(s.Screen(t), OpsOf(s, Start(c, at, image), t))
  {
    LaunchShows(CopyCommand(s, at, c), image);
    ApplyOne(s.Screen(t), Print(MAX_PROCESSES_TEXT));
  }

  lemma KeyOps(s: State, e: Step, t: int)
    requires s.Good() && Possible(s, e) && 0 <= t < 3 && (e.Type? || e.Rub?)
    ensures Go(s, e).Screen(t) == ApplyAll(s.Screen(t), OpsOf(s, e, t))
  {
    ApplyOne(s.Screen(t), Erase);
    if e.Type? {
      ApplyOne(s.Screen(t), Print([e.c]));
      PutOne(s.Screen(t), e.c);
    }
  }

  /** Halting, switching terminals and ticks show nothing new anywhere. */
  lemma ScreensKept(s: State, e: Step)
    requires s.Good() && Possible(s, e) && (e.Finish? || e.Display? || e.Tick?)
    ensures Go(s, e).screens == s.screens
  {
    if e.Display? && s.procs.curr[e.terminal] == NOBODY {
      FirstVisit(s.procs.(active := e.terminal));
    }
  }

  /** Every step acts on each terminal by that terminal's own operations only. */
  lemma StepOps(s: State, e: Step, t: int)
    requires s.Good() && Possible(s, e) && 0 <= t < 3
    ensures Go(s, e).Screen(t) == ApplyAll(s.Screen(t), OpsOf(s, e, t))
  {
    match e
    case Store(_, _) => WritingOps(s, e, t);
    case Fill(_, _) => WritingOps(s, e, t);
    case GetArgs(_, _) => WritingOps(s, e, t);
    case Vidmap(_) => WritingOps(s, e, t);
    case Start(c, at, image) => StartOps(s, c, at, image, t);
    case Write(text) => WriteOps(s, text, t);
    case Type(_) => KeyOps(s, e, t);
    case Rub => KeyOps(s, e, t);
    case _ => ScreensKept(s, e);
  }

  /** The operations of terminal `t` during a run, in order. */
  function Ops(s: State, steps: seq<Step>, t: int): seq<Op>
    requires s.Good() && Follows(s, steps)
    decreases |steps|
  {
    if steps == [] then [] else OpsOf(s, steps[0], t) + Ops(Go(s, steps[0]), steps[1..], t)
  }

  /** Sharing one video page behaves as three independent terminals. */
  lemma {:induction false} TerminalsIndependent(s: State, steps: seq<Step>, t: int)
    requires s.Good() && Follows(s, steps) && 0 <= t < 3
    ensures System.Run(s, steps).Screen(t) == ApplyAll(s.Screen(t), Ops(s, steps, t))
    decreases |steps|
  {
    if steps != [] {
      StepOps(s, steps[0], t);
      TerminalsIndependent(Go(s, steps[0]), steps[1..], t);
      ApplyConcat(s.Screen(t), OpsOf(s, steps[0], t), Ops(Go(s, steps[0]), steps[1..], t));
    }
  }

  // ----- Text only -----

  /** Nothing is erased, and nothing but the own program page is written to. */
  predicate Quiet(e: Step) {
    match e
    case Rub => false
    case Store(va, _) => va / 0x400000 == 32
    case Fill(va, _) => va / 0x400000 == 32
    case GetArgs(va, _) => va / 0x400000 == 32
    case Vidmap(ptr) => ptr / 0x400000 == 32
    case _ => true
  }

  predicate TextOnly(steps: seq<Step>) {
    forall e :: e in steps ==> Quiet(e)
  }

  function TextOf(ops: seq<Op>): seq<byte> {
    if ops == [] then [] else (if ops[0].Print? then ops[0].text else []) + TextOf(ops[1..])
  }

  lemma {:induction false} PutAllConcat(t: Term, a: seq<byte>, b: seq<byte>)
    requires t.Valid()
    ensures PutAll(t, a + b) == PutAll(PutAll(t, a), b)
    decreases |a|
  {
    if a == [] {
      assert a + b == b;
    } else {
      assert (a + b)[1..] == a[1..] + b;
      PutAllConcat(PutChar(t, a[0]), a[1..], b);
    }
  }

  lemma {:induction false} PrintsOnly(t: Term, ops: seq<Op>)
    requires t.Valid() && forall op :: op in ops ==> op.Print?
    ensures ApplyAll(t, ops) == PutAll(t, TextOf(ops))
    decreases |ops|
  {
    if ops != [] {
      PrintsOnly(Apply(t, ops[0]), ops[1..]);
      PutAllConcat(t, ops[0].text, TextOf(ops[1..]));
    }
  }

  lemma {:induction false} NoDots(active: int, pid: int, ls: seq<Landing>, t: int)
    requires 0 <= pid && forall l :: l in ls ==> InFrame(l.at, pid)
    ensures DotsOf(active, ls, t) == []
    decreases |ls|
  {
    if ls != [] {
      NoDots(active, pid, ls[1..], t);
    }
  }

  lemma QuietWriting(s: State, e: Step, t: int)
    requires s.Good() && Possible(s, e) && Quiet(e) && Writing(e)
    ensures OpsOf(s, e, t) == []
  {
    match e {
      case Store(va, b) => UserReach(s.pages, s.procs.main, va);
      case Fill(va, bytes) => LandingsOwn(s.pages, s.procs.main, va, bytes);
      case GetArgs(va, n) => LandingsOwn(s.pages, s.procs.main, va, s.args + [NUL]);
      case Vidmap(ptr) =>
        VidmapFixed(s.pages, s.procs.main);
        LandingsOwn(OpenVidmap(s.pages), s.procs.main, ptr, VIDMAP_BYTES);
      case _ =>
    }
    NoDots(s.procs.active, s.procs.main, Arrivals(s, e), t);
  }

  lemma PrintStep(s: State, e: Step, t: int)
    requires s.Good() && Possible(s, e) && Quiet(e)
    ensures forall op :: op in OpsOf(s, e, t) ==> op.Print?
  {
    if Writing(e) {
      QuietWriting(s, e, t);
    }
  }

  lemma {:induction false} TextOps(s: State, steps: seq<Step>, t: int)
    requires s.Good() && Follows(s, steps) && TextOnly(steps)
    ensures forall op :: op in Ops(s, steps, t) ==> op.Print?
    decreases |steps|
  {
    if steps != [] {
      PrintStep(s, steps[0], t);
      TextOps(Go(s, steps[0]), steps[1..], t);
    }
  }

  /**
   A terminal that was blank shows, after any run of text, the last 25 rows of its own text
   on paper, and its cursor is where that text ends.
   */
  lemma ScreenIsPaper(s: State, steps: seq<Step>, t: int)
    requires s.Good() && Follows(s, steps) && TextOnly(steps) && 0 <= t < 3 && s.Screen(t) == BLANK
    ensures System.Run(s, steps).Screen(t) == Rendered(TextOf(Ops(s, steps, t)))
  {
    TerminalsIndependent(s, steps, t);
    TextOps(s, steps, t);
    PrintsOnly(s.Screen(t), Ops(s, steps, t));
    RenderingCorrect(TextOf(Ops(s, steps, t)));
  }

  // ----- Nothing after the cursor -----

  lemma {:induction false} PutAllKeepsBlank(t: Term, text: seq<byte>)
    requires t.Valid() && BlankFromCursor(t)
    ensures BlankFromCursor(PutAll(t, text))
    decreases |text|
  {
    if text != [] {
      NothingAfterCursor(t, text[0]);
      PutAllKeepsBlank(PutChar(t, text[0]), text[1..]);
    }
  }

  /** Unless a process writes to video memory every reachable screen is blank from the cursor on, so a typed line can be erased without a trace. */
  lemma {:induction false} BlankAfterCursor(t: Term, ops: seq<Op>)
    requires t.Valid() && BlankFromCursor(t) && forall op :: op in ops ==> !op.Dot?
    ensures BlankFromCursor(ApplyAll(t, ops))
    decreases |ops|
  {
    if ops != [] {
      match ops[0] {
        case Print(text) => PutAllKeepsBlank(t, text);
        case _ => NothingAfterCursor(t, SPACE);
      }
      BlankAfterCursor(Apply(t, ops[0]), ops[1..]);
    }
  }
}
