/**
 What is typed and what is seen: while nobody else writes on a terminal, the cells before its
 cursor hold exactly the line being edited, so the line handed in with Enter is the one shown.
 */
module EchoedLine {
  import opened Bytes
  import opened Terminal
  import opened FileImage
  import opened Names
  import opened Paging
  import opened LineDiscipline
  import opened Screens
  import opened System
  import opened Session

  /**
   Terminal `u` shows `line` up to its cursor, nothing behind it, and in front of it what
   `home` showed in front of its cursor, maybe some rows further up.
   */
  predicate ShowsLine(home: Term, u: Term, line: seq<byte>) {
    && home.Valid() && u.Valid() && BlankFromCursor(u)
    && var start := u.Cursor() - |line|;
       && 0 <= start <= home.Cursor() && (home.Cursor() - start) % 80 == 0
       && (forall j :: 0 <= j < start ==> u.grid[j] == home.grid[home.Cursor() - start + j])
       && (forall i :: 0 <= i < |line| ==> u.grid[start + i] == line[i])
  }

  lemma ShowsNothing(home: Term)
    requires home.Valid() && BlankFromCursor(home)
    ensures ShowsLine(home, home, [])
  {
  }

  lemma CharShown(home: Term, u: Term, line: seq<byte>, c: byte)
    requires ShowsLine(home, u, line) && |line| < 127 && !IsNewline(c)
    ensures ShowsLine(home, PutChar(u, c), line + [c])
  {
    var v := PutChar(u, c);
    NothingAfterCursor(u, c);
    if u.Cursor() == 1999 {
      assert v.Cursor() == 1920;
    } else {
      assert v.Cursor() == u.Cursor() + 1 && v.grid == u.grid[u.Cursor() := c];
    }
  }

  lemma RubShown(home: Term, u: Term, line: seq<byte>)
    requires ShowsLine(home, u, line) && line != []
    ensures ShowsLine(home, Backspace(u), line[..|line| - 1])
  {
    NothingAfterCursor(u, SPACE);
    assert Backspace(u).Cursor() == u.Cursor() - 1;
  }

  // ----- One event of the whole system -----

  /** A key within a line: a printing character, a backspace, a key without effect, or a tab that completes nothing. */
  predicate WithinLine(img: seq<byte>, line: seq<byte>, k: Key)
    requires WellFormed(img) && |line| <= 127
  {
    match k
    case Char(c) => !IsNewline(c)
    case Enter => false
    case Rubout => true
    case Tab => Complete(img, line) == line
    case Silent => true
  }

  /** What a key does to the displayed terminal's line and to its screen. */
  lemma PressOnActive(img: seq<byte>, w: Whole, k: Key, t: int)
    requires WellFormed(img) && w.Good() && CanOccur(w, Pressed(k)) && t == w.d.active && WithinLine(img, w.d.desk[t].line, k)
    ensures var u := WholeStep(img, w, Pressed(k)); var line := w.d.desk[t].line;
            && |u.s.screens| == 3 && w.s.screens[t].Valid()
            && match k
               case Char(c) => if |line| == 127 then u.d.desk[t].line == line && u.s.screens[t] == w.s.screens[t]
                               else u.d.desk[t].line == line + [c] && u.s.screens[t] == PutChar(w.s.screens[t], c)
               case Rubout => if line == [] then u.d.desk[t].line == line && u.s.screens[t] == w.s.screens[t]
                              else u.d.desk[t].line == line[..|line| - 1] && u.s.screens[t] == Terminal.Backspace(w.s.screens[t])
               case _ => u.d.desk[t].line == line && u.s.screens[t] == w.s.screens[t]
  {
  }

  lemma PressElsewhere(img: seq<byte>, w: Whole, k: Key, t: int)
    requires WellFormed(img) && w.Good() && CanOccur(w, Pressed(k)) && 0 <= t < 3 && t != w.d.active
    ensures var u := WholeStep(img, w, Pressed(k)); |u.s.screens| == 3 && u.d.desk[t] == w.d.desk[t] && u.s.screens[t] == w.s.screens[t]
  {
  }

  /** The terminal shows the line it is editing. */
  predicate InView(home: Term, w: Whole, t: int)
    requires w.Good() && 0 <= t < 3
  {
    ShowsLine(home, w.s.Screen(t), w.d.desk[t].line)
  }

  lemma PressInView(img: seq<byte>, home: Term, w: Whole, k: Key, t: int, u: Whole)
    requires WellFormed(img) && w.Good() && CanOccur(w, Pressed(k)) && t == w.d.active && WithinLine(img, w.d.desk[t].line, k)
    requires u == WholeStep(img, w, Pressed(k)) && u.Good() && InView(home, w, t)
    ensures InView(home, u, t)
  {
    PressOnActive(img, w, k, t);
    var line := w.d.desk[t].line;
    match k
    case Char(c) => if |line| < 127 { CharShown(home, w.s.screens[t], line, c); }
    case Rubout => if line != [] { RubShown(home, w.s.screens[t], line); }
    case _ =>
  }

  /** On terminal `t` the event is a key within its line, or nothing at all. */
  predicate Undisturbed(img: seq<byte>, w: Whole, e: TerminalEvent, t: int)
    requires WellFormed(img) && w.Good() && CanOccur(w, e) && 0 <= t < 3
  {
    match e
    case Pressed(k) => w.d.active == t ==> WithinLine(img, w.d.desk[t].line, k)
    case Reading(va) => va != 0 && Delivery(w).Some? ==> OpsOf(w.s, Fill(va, Delivery(w).value), t) == []
    case Other(x) => OpsOf(w.s, x, t) == []
  }

  lemma StepUnseen(s: State, x: Step, t: int)
    requires s.Good() && Possible(s, x) && 0 <= t < 3 && OpsOf(s, x, t) == []
    ensures Go(s, x).Screen(t) == s.Screen(t)
  {
    StepOps(s, x, t);
  }

  lemma FillUnseen(s: State, x: Step, va: int, bytes: seq<byte>, t: int, u: State)
    requires s.Good() && x == Fill(va, bytes) && Possible(s, x) && 0 <= t < 3 && OpsOf(s, x, t) == []
    requires u == FillBuffer(s, va, bytes) && u.Good()
    ensures u.Screen(t) == s.Screen(t)
  {
    StepUnseen(s, x, t);
  }

  lemma ReadUnseen(img: seq<byte>, w: Whole, va: int, t: int, u: Whole)
    requires WellFormed(img) && w.Good() && CanOccur(w, Reading(va)) && 0 <= t < 3 && Undisturbed(img, w, Reading(va), t)
    requires u == WholeStep(img, w, Reading(va)) && u.Good()
    ensures u.s.Screen(t) == w.s.Screen(t) && u.d.desk[t].line == w.d.desk[t].line
  {
    if va != 0 && Delivery(w).Some? {
      FillUnseen(w.s, Fill(va, Delivery(w).value), va, Delivery(w).value, t, u.s);
    }
  }

  lemma OtherUnseen(img: seq<byte>, w: Whole, x: Step, t: int, u: Whole)
    requires WellFormed(img) && w.Good() && CanOccur(w, Other(x)) && 0 <= t < 3 && Undisturbed(img, w, Other(x), t)
    requires u == WholeStep(img, w, Other(x)) && u.Good()
    ensures u.s.Screen(t) == w.s.Screen(t) && u.d.desk[t].line == w.d.desk[t].line
  {
    StepUnseen(w.s, x, t);
  }

  lemma EventInView(img: seq<byte>, home: Term, w: Whole, e: TerminalEvent, t: int, u: Whole)
    requires WellFormed(img) && w.Good() && CanOccur(w, e) && 0 <= t < 3 && Undisturbed(img, w, e, t)
    requires u == WholeGo(img, w, e) && InView(home, w, t)
    ensures InView(home, u, t)
  {
    match e
    case Pressed(k) => if w.d.active == t { PressInView(img, home, w, k, t, u); } else { PressElsewhere(img, w, k, t); }
    case Reading(va) => ReadUnseen(img, w, va, t, u);
    case Other(x) => OtherUnseen(img, w, x, t, u);
  }

  // ----- Whole runs -----

  predicate AllUndisturbed(img: seq<byte>, w: Whole, events: seq<TerminalEvent>, t: int)
    requires WellFormed(img) && w.Good() && Occurs(img, w, events) && 0 <= t < 3
    decreases |events|
  {
    events == [] || (Undisturbed(img, w, events[0], t) && AllUndisturbed(img, WholeGo(img, w, events[0]), events[1..], t))
  }

  lemma {:induction false} RunInView(img: seq<byte>, home: Term, w: Whole, events: seq<TerminalEvent>, t: int)
    requires WellFormed(img) && w.Good() && Occurs(img, w, events) && 0 <= t < 3
    requires AllUndisturbed(img, w, events, t) && InView(home, w, t)
    ensures InView(home, RunWhole(img, w, events), t)
    decreases |events|
  {
    if events != [] {
      var u := WholeGo(img, w, events[0]);
      EventInView(img, home, w, events[0], t, u);
      RunInView(img, home, u, events[1..], t);
    }
  }

  /**
   From an empty line, over any run of the whole system in which the terminal is typed at and
   nobody else writes on it, its screen is what was there before, then the line being edited,
   then nothing.
   */
  lemma LineIsShown(img: seq<byte>, w: Whole, events: seq<TerminalEvent>, t: int)
    requires WellFormed(img) && w.Good() && Occurs(img, w, events) && 0 <= t < 3 && AllUndisturbed(img, w, events, t)
    requires w.d.desk[t].line == [] && BlankFromCursor(w.s.Screen(t))
    ensures var u := RunWhole(img, w, events); ShowsLine(w.s.Screen(t), u.s.Screen(t), u.d.desk[t].line)
  {
    ShowsNothing(w.s.Screen(t));
    RunInView(img, w.s.Screen(t), w, events, t);
  }

  /** Enter hands in the line and goes on at the start of the next row, and a read by a process of the displayed terminal gets it with its line feed. */
  lemma EnterDelivers(img: seq<byte>, u: Whole, t: int)
    requires WellFormed(img) && u.Good() && t == u.d.active
    ensures var v := WholeGo(img, u, Pressed(Enter));
            && Delivery(v) == (if v.s.Turn() == t then Some(u.d.desk[t].line + [LINE_FEED]) else None)
            && v.d.desk[t].line == [] && v.s.Screen(t) == NextRow(u.s.Screen(t))
  {
  }

  /** So whatever was typed and rubbed out, the line a process is given is the one that stood before the cursor when Enter was pressed. */
  lemma DeliveredIsShown(img: seq<byte>, w: Whole, events: seq<TerminalEvent>, t: int, u: Whole, v: Whole) returns (line: seq<byte>)
    requires WellFormed(img) && w.Good() && Occurs(img, w, events) && 0 <= t < 3 && AllUndisturbed(img, w, events, t)
    requires w.d.desk[t].line == [] && BlankFromCursor(w.s.Screen(t))
    requires u == RunWhole(img, w, events) && u.d.active == t && v == WholeGo(img, u, Pressed(Enter)) && v.s.Turn() == t
    ensures ShowsLine(w.s.Screen(t), u.s.Screen(t), line) && Delivery(v) == Some(line + [LINE_FEED])
  {
    line := u.d.desk[t].line;
    LineIsShown(img, w, events, t);
    EnterDelivers(img, u, t);
  }
}
