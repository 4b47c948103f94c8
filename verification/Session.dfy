/**
 The whole system at work: the kernel's steps, the keys typed and the reads made, in any order.
 Each terminal's lines go the way they would if it were alone, and what is shown follows the
 kernel's own runs.
 */
module Session {
  import opened Bytes
  import opened Terminal
  import opened Processes
  import opened FileImage
  import opened LineDiscipline
  import opened Paging
  import opened System

  /** A character, or a backspace, on the displayed terminal. */
  function Typing(s: State, c: byte): State
    requires |s.screens| == 3 && 0 <= s.procs.active < 3 && s.screens[s.procs.active].Valid()
  {
    OnScreen(s, s.procs.active, PutChar(s.screens[s.procs.active], c))
  }

  function Rubbing(s: State): State
    requires |s.screens| == 3 && 0 <= s.procs.active < 3 && s.screens[s.procs.active].Valid()
  {
    OnScreen(s, s.procs.active, Terminal.Backspace(s.screens[s.procs.active]))
  }

  /** What the handler shows for a key typed at a line. */
  function EchoOf(s: State, line: seq<byte>, k: Key): State
    requires |s.screens| == 3 && 0 <= s.procs.active < 3 && s.screens[s.procs.active].Valid()
  {
    match k
    case Char(c) => if |line| == 127 then s else Typing(s, c)
    case Enter => Typing(s, LINE_FEED)
    case Rubout => if line == [] then s else Rubbing(s)
    case _ => s
  }

  /** The kernel, and what became of each terminal's lines. */
  datatype Whole = Whole(s: State, d: Desks) {
    predicate Good() {
      s.Good() && d.Valid() && d.active == s.procs.active
    }
  }

  /** A key, one look for a line by a process reading into a buffer, or any other step of the kernel. */
  datatype TerminalEvent = Pressed(k: Key) | Reading(va: int) | Other(x: Step)

  /** What a look for a line delivers: the waiting line and its line feed, to a process of the displayed terminal. */
  function Delivery(w: Whole): Option<seq<byte>>
    requires w.Good()
  {
    var mail := w.d.desk[w.d.active].mail;
    if w.s.Turn() != w.d.active || mail == None then None else Some(mail.value + [LINE_FEED])
  }

  predicate CanOccur(w: Whole, e: TerminalEvent)
    requires w.Good()
  {
    match e
    case Pressed(k) => Decoded(k)
    case Reading(va) =>
      0 <= va < 0x1_0000_0000 && (va != 0 && Delivery(w).Some? ==> Possible(w.s, Fill(va, Delivery(w).value)))
    case Other(x) => Possible(w.s, x) && !x.Type? && !x.Rub?
  }

  /** What an event is to the line editors. */
  function LineEventsOf(w: Whole, e: TerminalEvent): seq<LineEvent>
    requires w.Good()
  {
    match e
    case Pressed(k) => [Typed(k)]
    case Reading(va) => if va == 0 then [] else [Asked(w.s.Turn())]
    case Other(x) => if x.Display? then [Shown(x.terminal)] else []
  }

  /** What an event is to the kernel. */
  function StepsOf(w: Whole, e: TerminalEvent): seq<Step>
    requires w.Good()
  {
    match e
    case Pressed(k) => EchoSteps(w.d.desk[w.d.active].line, k)
    case Reading(va) => if va == 0 || Delivery(w) == None then [] else [Fill(va, Delivery(w).value)]
    case Other(x) => [x]
  }

  function EchoSteps(line: seq<byte>, k: Key): seq<Step> {
    match k
    case Char(c) => if |line| == 127 then [] else [Type(c)]
    case Enter => [Type(LINE_FEED)]
    case Rubout => if line == [] then [] else [Rub]
    case _ => []
  }

  /** A line that is delivered arrives in the reader's buffer. */
  function Delivered(s: State, va: int, line: Option<seq<byte>>): State
    requires s.Formed() && 0 <= va
  {
    match line
    case None => s
    case Some(l) => FillBuffer(s, va, l)
  }

  function WholeStep(img: seq<byte>, w: Whole, e: TerminalEvent): Whole
    requires WellFormed(img) && w.Good() && CanOccur(w, e)
  {
    match e
    case Pressed(k) => Whole(EchoOf(w.s, w.d.desk[w.d.active].line, k), AtDesks(img, w.d, Typed(k)))
    case Reading(va) => if va == 0 then w else Whole(Delivered(w.s, va, Delivery(w)), AtDesks(img, w.d, Asked(w.s.Turn())))
    case Other(x) => Whole(Go(w.s, x), if x.Display? then AtDesks(img, w.d, Shown(x.terminal)) else w.d)
  }

  lemma EchoIsSteps(s: State, line: seq<byte>, k: Key)
    requires s.Good()
    ensures System.Leads(s, EchoSteps(line, k), EchoOf(s, line, k)) && EchoOf(s, line, k).procs == s.procs
  {
    match k
    case Char(c) => if |line| == 127 { NoStep(s); } else { OneStep(s, Type(c)); }
    case Enter => OneStep(s, Type(LINE_FEED));
    case Rubout => if line == [] { NoStep(s); } else { OneStep(s, Rub); }
    case _ => NoStep(s);
  }

  lemma NoStep(s: State)
    requires s.Good()
    ensures Follows(s, []) && System.Run(s, []) == s
  {
  }

  lemma OneStep(s: State, e: Step)
    requires s.Good() && Possible(s, e)
    ensures Follows(s, [e]) && System.Run(s, [e]) == Go(s, e)
  {
    assert [e][1..] == [];
    assert Follows(Go(s, e), []) && System.Run(Go(s, e), []) == Go(s, e);
  }

  /** Only showing a terminal changes which one is displayed. */
  lemma ActiveAfter(s: State, x: Step)
    requires s.Good() && Possible(s, x)
    ensures Go(s, x).procs.active == if x.Display? then x.terminal else s.procs.active
  {
    StepProcs(s, x);
  }

  /** What it takes for a step of the kernel to be one of the whole. */
  lemma OtherIsStep(img: seq<byte>, w: Whole, x: Step, u: Whole)
    requires WellFormed(img) && w.Good() && CanOccur(w, Other(x))
    requires u.s == Go(w.s, x) && u.d.desk == w.d.desk && u.d.active == u.s.procs.active
    ensures u == WholeStep(img, w, Other(x))
  {
    ActiveAfter(w.s, x);
  }

  lemma WholeGood(img: seq<byte>, w: Whole, e: TerminalEvent)
    requires WellFormed(img) && w.Good() && CanOccur(w, e)
    ensures WholeStep(img, w, e).Good()
  {
    match e
    case Pressed(k) => EchoIsSteps(w.s, w.d.desk[w.d.active].line, k);
    case Reading(va) =>
      if va != 0 && Delivery(w).Some? {
        ActiveAfter(w.s, Fill(va, Delivery(w).value));
      }
    case Other(x) => ActiveAfter(w.s, x);
  }

  function WholeGo(img: seq<byte>, w: Whole, e: TerminalEvent): (u: Whole)
    requires WellFormed(img) && w.Good() && CanOccur(w, e)
    ensures u.Good()
  {
    WholeGood(img, w, e);
    WholeStep(img, w, e)
  }

  predicate Occurs(img: seq<byte>, w: Whole, events: seq<TerminalEvent>)
    requires WellFormed(img) && w.Good()
    decreases |events|
  {
    events == [] || (CanOccur(w, events[0]) && Occurs(img, WholeGo(img, w, events[0]), events[1..]))
  }

  function RunWhole(img: seq<byte>, w: Whole, events: seq<TerminalEvent>): (u: Whole)
    requires WellFormed(img) && w.Good() && Occurs(img, w, events)
    ensures u.Good()
    decreases |events|
  {
    if events == [] then w else RunWhole(img, WholeGo(img, w, events[0]), events[1..])
  }

  /** The line events of a run. */
  function AllLineEvents(img: seq<byte>, w: Whole, events: seq<TerminalEvent>): seq<LineEvent>
    requires WellFormed(img) && w.Good() && Occurs(img, w, events)
    decreases |events|
  {
    if events == [] then []
    else LineEventsOf(w, events[0]) + AllLineEvents(img, WholeGo(img, w, events[0]), events[1..])
  }

  /** The kernel's steps of a run. */
  function AllSteps(img: seq<byte>, w: Whole, events: seq<TerminalEvent>): seq<Step>
    requires WellFormed(img) && w.Good() && Occurs(img, w, events)
    decreases |events|
  {
    if events == [] then []
    else StepsOf(w, events[0]) + AllSteps(img, WholeGo(img, w, events[0]), events[1..])
  }

  lemma {:induction false} DesksConcat(img: seq<byte>, d: Desks, a: seq<LineEvent>, b: seq<LineEvent>)
    requires WellFormed(img) && d.Valid()
    ensures AllAtDesks(img, d, a + b) == AllAtDesks(img, AllAtDesks(img, d, a), b)
    decreases |a|
  {
    if a == [] {
      assert a + b == b;
    } else {
      assert (a + b)[1..] == a[1..] + b;
      DesksConcat(img, AtDesks(img, d, a[0]), a[1..], b);
    }
  }

  lemma OneAtDesks(img: seq<byte>, d: Desks, e: LineEvent)
    requires WellFormed(img) && d.Valid()
    ensures AllAtDesks(img, d, [e]) == AtDesks(img, d, e)
  {
    assert [e][1..] == [];
    assert AllAtDesks(img, AtDesks(img, d, e), []) == AtDesks(img, d, e);
  }

  lemma StepLines(img: seq<byte>, w: Whole, e: TerminalEvent)
    requires WellFormed(img) && w.Good() && CanOccur(w, e)
    ensures WholeStep(img, w, e).d == AllAtDesks(img, w.d, LineEventsOf(w, e))
  {
    if LineEventsOf(w, e) != [] {
      OneAtDesks(img, w.d, LineEventsOf(w, e)[0]);
    }
  }

  /** Whatever the kernel does in between, the lines go as keys, reads and switches of terminals say. */
  lemma {:induction false} LinesInRun(img: seq<byte>, w: Whole, events: seq<TerminalEvent>)
    requires WellFormed(img) && w.Good() && Occurs(img, w, events)
    ensures RunWhole(img, w, events).d == AllAtDesks(img, w.d, AllLineEvents(img, w, events))
    decreases |events|
  {
    if events != [] {
      StepLines(img, w, events[0]);
      LinesInRun(img, WholeGo(img, w, events[0]), events[1..]);
      DesksConcat(img, w.d, LineEventsOf(w, events[0]), AllLineEvents(img, WholeGo(img, w, events[0]), events[1..]));
    }
  }

  lemma LeadTail(s: State, a: seq<Step>, u: State) returns (m: State)
    requires System.Leads(s, a, u) && a != []
    ensures Possible(s, a[0]) && m == Go(s, a[0]) && System.Leads(m, a[1..], u)
  {
    m := Go(s, a[0]);
  }

  lemma FirstAndRest(a: seq<Step>, b: seq<Step>)
    requires a != []
    ensures [a[0]] + (a[1..] + b) == a + b
  {
  }

  lemma {:induction false} LeadsOn(s: State, a: seq<Step>, u: State, b: seq<Step>, v: State)
    requires System.Leads(s, a, u) && System.Leads(u, b, v)
    ensures System.Leads(s, a + b, v)
    decreases |a|
  {
    if a == [] {
      assert a + b == b;
    } else {
      var m := LeadTail(s, a, u);
      LeadsOn(m, a[1..], u, b, v);
      System.LeadOne(s, a[0], a[1..] + b, m, v);
      FirstAndRest(a, b);
    }
  }

  lemma StepKernel(img: seq<byte>, w: Whole, e: TerminalEvent)
    requires WellFormed(img) && w.Good() && CanOccur(w, e)
    ensures Follows(w.s, StepsOf(w, e)) && WholeStep(img, w, e).s == System.Run(w.s, StepsOf(w, e))
  {
    match e
    case Pressed(k) => EchoIsSteps(w.s, w.d.desk[w.d.active].line, k);
    case Reading(va) => if va == 0 || Delivery(w) == None { NoStep(w.s); } else { OneStep(w.s, Fill(va, Delivery(w).value)); }
    case Other(x) => OneStep(w.s, x);
  }

  /** The kernel in a run goes where its own steps and the echoes lead, so all its theorems hold here. */
  lemma {:induction false} KernelInRun(img: seq<byte>, w: Whole, events: seq<TerminalEvent>)
    requires WellFormed(img) && w.Good() && Occurs(img, w, events)
    ensures Follows(w.s, AllSteps(img, w, events))
    ensures RunWhole(img, w, events).s == System.Run(w.s, AllSteps(img, w, events))
    decreases |events|
  {
    if events != [] {
      var u := WholeGo(img, w, events[0]);
      StepKernel(img, w, events[0]);
      KernelInRun(img, u, events[1..]);
      LeadsOn(w.s, StepsOf(w, events[0]), u.s, AllSteps(img, u, events[1..]), RunWhole(img, u, events[1..]).s);
    }
  }

  lemma {:induction false} LinesDecoded(img: seq<byte>, w: Whole, events: seq<TerminalEvent>)
    requires WellFormed(img) && w.Good() && Occurs(img, w, events)
    ensures forall e :: e in AllLineEvents(img, w, events) && e.Typed? ==> Decoded(e.k)
    decreases |events|
  {
    if events != [] {
      LinesDecoded(img, WholeGo(img, w, events[0]), events[1..]);
    }
  }

  /**
   From fresh line editors, at whatever state of the kernel, over any run of the whole system:
   every delivery on a terminal is a line handed in there, once, in order.
   */
  lemma DeliveredInRun(img: seq<byte>, s: State, events: seq<TerminalEvent>, t: int)
    requires PlainNames(img) && s.Good() && 0 <= t < 3
    requires Occurs(img, Whole(s, Desks([FRESH_DESK, FRESH_DESK, FRESH_DESK], s.procs.active)), events)
    ensures Orderly(RunWhole(img, Whole(s, Desks([FRESH_DESK, FRESH_DESK, FRESH_DESK], s.procs.active)), events).d.desk[t])
  {
    var w := Whole(s, Desks([FRESH_DESK, FRESH_DESK, FRESH_DESK], s.procs.active));
    LinesInRun(img, w, events);
    LinesDecoded(img, w, events);
    LinesDelivered(img, s.procs.active, AllLineEvents(img, w, events), t);
  }
}
