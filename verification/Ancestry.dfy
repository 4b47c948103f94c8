/**
 The parent of a new process is not recorded as its caller: it is recomputed as the greatest
 lower slot of the displayed terminal.  With six slots every front process still has a line
 of live ancestors in its own terminal down to that terminal's shell; with seven it may not.
 */
module Ancestry {
  import opened Processes

  /** From slot `i`, the recorded parents lead down through live slots of `t` to its shell. */
  ghost predicate Line(s: Procs, i: int, t: int)
    requires s.Basic()
    decreases if i < 0 then 0 else i
  {
    && 0 <= i < s.Slots() && s.owner[i] == t
    && (if i < 3 then i == t else s.parent[i] < i && Line(s, s.parent[i], t))
  }

  ghost predicate Sound(s: Procs)
    requires s.Basic()
  {
    && s.owner[s.main] != FREE && s.curr[s.owner[s.main]] == s.main
    && s.curr[s.active] != NOBODY
    && (forall t :: 0 <= t < 3 && s.curr[t] != NOBODY ==> Line(s, s.curr[t], t))
  }

  /** The recorded parent of `i` is a lower live slot of the same terminal. */
  predicate ParentLives(s: Procs, i: int)
    requires s.Basic() && 0 <= i < s.Slots()
  {
    i < 3 || (s.parent[i] < i && s.owner[s.parent[i]] == s.owner[i])
  }

  predicate Front(s: Procs, t: int)
    requires s.Basic() && 0 <= t < 3
  {
    s.curr[t] == NOBODY || (s.owner[s.curr[t]] == t && ParentLives(s, s.curr[t]))
  }

  /**
   What six slots keep.  Slot 5 may outlive its parent, but then nobody ever adopts it;
   slot 4 never outlives slot 3 while 3 is its parent.
   */
  predicate Kin(s: Procs)
    requires s.Basic()
  {
    && s.Slots() == 6
    && Running(s)
    && Front(s, 0) && Front(s, 1) && Front(s, 2)
    && (s.owner[3] != FREE ==> ParentLives(s, 3))
    && (s.owner[4] != FREE ==> ParentLives(s, 4))
    && (s.owner[4] != FREE && s.parent[4] == 3 ==> Descends4(s))
  }

  predicate Running(s: Procs)
    requires s.Basic()
  {
    s.owner[s.main] != FREE && s.curr[s.owner[s.main]] == s.main
  }

  /** The front process of slot 4's terminal is 4 itself, or 5 started from it. */
  predicate Descends4(s: Procs)
    requires s.Basic() && s.Slots() == 6 && s.owner[4] != FREE
  {
    var c := s.curr[s.owner[4]];
    c == 4 || (c == 5 && s.parent[5] == 4)
  }

  lemma KinLine(s: Procs, i: int)
    requires s.Basic() && Kin(s) && 0 <= i < 6 && s.owner[i] != FREE && ParentLives(s, i)
    ensures Line(s, i, s.owner[i])
  {
    if 3 <= i {
      KinLine(s, s.parent[i]);
    }
  }

  lemma KinSound(s: Procs)
    requires s.Basic() && Kin(s) && s.curr[s.active] != NOBODY
    ensures Sound(s)
  {
    forall t | 0 <= t < 3 && s.curr[t] != NOBODY
      ensures Line(s, s.curr[t], t)
    {
      assert Front(s, t);
      KinLine(s, s.curr[t]);
    }
  }

  predicate Lives(s: Procs, i: int)
    requires s.Basic()
  {
    0 <= i < s.Slots() && s.owner[i] != FREE && ParentLives(s, i)
  }

  /** `u` is `s` with a process of terminal `t` started in the free common slot `i`. */
  predicate Started(s: Procs, u: Procs, i: int, t: int)
    requires s.Basic()
  {
    && 3 <= i < s.Slots() && 0 <= t < 3 && s.owner[i] == FREE && s.owner[t] == t
    && u == Procs(s.owner[i := t], i, u.active, s.curr[t := i],
                  s.parent[i := GreatestBelow(s.owner[i := t], i, t)])
  }

  lemma StartedLives(s: Procs, u: Procs, i: int, t: int, j: int)
    requires s.Basic() && u.Basic() && Started(s, u, i, t)
    requires j == i || Lives(s, j)
    ensures Lives(u, j) && u.owner[j] == if j == i then t else s.owner[j]
    ensures j != i ==> u.parent[j] == s.parent[j]
  {
    if j == i {
      RootFound(u.owner, i, t);
    }
  }

  lemma StartedFront(s: Procs, u: Procs, i: int, t: int, t': int)
    requires s.Basic() && u.Basic() && Started(s, u, i, t) && 0 <= t' < 3 && Front(s, t')
    ensures Front(u, t')
  {
    if u.curr[t'] != NOBODY {
      StartedLives(s, u, i, t, u.curr[t']);
    }
  }

  lemma StartedDescends(s: Procs, u: Procs, i: int, t: int)
    requires s.Basic() && u.Basic() && Kin(s) && Started(s, u, i, t)
    requires u.owner[4] != FREE && u.parent[4] == 3
    ensures Descends4(u)
  {
    if i == 5 && s.owner[4] == t {
      assert GreatestBelow(u.owner, 5, t) == 4;
    }
  }

  lemma StartKin(s: Procs, u: Procs, i: int, t: int)
    requires s.Basic() && Kin(s) && u.Basic() && Started(s, u, i, t)
    ensures Kin(u)
  {
    StartedFront(s, u, i, t, 0);
    StartedFront(s, u, i, t, 1);
    StartedFront(s, u, i, t, 2);
    if i == 3 || s.owner[3] != FREE { StartedLives(s, u, i, t, 3); }
    if i == 4 || s.owner[4] != FREE { StartedLives(s, u, i, t, 4); }
    if u.owner[4] != FREE && u.parent[4] == 3 { StartedDescends(s, u, i, t); }
  }

  /** The first visit of a terminal starts its shell. */
  lemma FirstVisitKin(s: Procs)
    requires s.Basic() && Kin(s) && s.owner[s.active] == FREE && Execute(s).Basic()
    ensures Kin(Execute(s))
  {
    FirstVisit(s);
  }

  lemma ExecuteKin(s: Procs)
    requires s.Basic() && Kin(s)
    ensures Execute(s).Basic() && Kin(Execute(s))
  {
    ExecuteBasic(s);
    if s.owner[s.active] == FREE {
      FirstVisitKin(s);
    } else if Pick(s) < 6 {
      ExecuteStarts(s);
      StartKin(s, Execute(s), Pick(s), s.active);
    }
  }

  lemma ExecuteStarts(s: Procs)
    requires s.Basic() && s.owner[s.active] != FREE && Pick(s) < s.Slots()
    ensures Started(s, Execute(s), Pick(s), s.active)
  {
  }

  /** No front process, and neither slot 3 nor 4, has the running process as its parent. */
  lemma Childless(s: Procs, j: int)
    requires s.Basic() && Kin(s) && 3 <= s.main && Lives(s, j) && j != s.main
    requires s.curr[s.owner[j]] == j || j < 5
    ensures s.parent[j] != s.main
  {
  }

  lemma ExitedLives(s: Procs, j: int)
    requires s.Basic() && Kin(s) && 3 <= s.main && Lives(s, j) && j != s.main && s.parent[j] != s.main
    requires Halt(s).Basic()
    ensures Lives(Halt(s), j) && Halt(s).owner[j] == s.owner[j] && Halt(s).parent[j] == s.parent[j]
  {
  }

  lemma ExitedFront(s: Procs, t: int)
    requires s.Basic() && Kin(s) && 3 <= s.main && 0 <= t < 3 && Halt(s).Basic()
    ensures Front(Halt(s), t)
    ensures Halt(s).curr[t] == if t == s.owner[s.main] then s.parent[s.main] else s.curr[t]
  {
    assert Front(s, t) && Front(s, s.owner[s.main]);
    var j := if t == s.owner[s.main] then s.parent[s.main] else s.curr[t];
    if j != NOBODY {
      assert Lives(s, j);
      Childless(s, j);
      ExitedLives(s, j);
    }
  }

  lemma ExitCommonKin(s: Procs)
    requires s.Basic() && Kin(s) && 3 <= s.main
    ensures Halt(s).Basic() && Kin(Halt(s))
  {
    HaltBasic(s);
    var u := Halt(s);
    ExitedFront(s, 0);
    ExitedFront(s, 1);
    ExitedFront(s, 2);
    if s.main != 3 && s.owner[3] != FREE { Childless(s, 3); ExitedLives(s, 3); }
    if s.main != 4 && s.owner[4] != FREE { Childless(s, 4); ExitedLives(s, 4); }
  }

  /** A halt leaves a consistent table exactly when it is not a shell halting behind the displayed terminal. */
  lemma HaltConsistentIff(s: Procs)
    requires s.Basic() && Kin(s)
    ensures Halt(s).Basic() <==> Allowed(s, Exit)
  {
    if Allowed(s, Exit) {
      HaltBasic(s);
    } else {
      var t := s.main;
      var r := Release(s);
      assert r.owner[t] == FREE && r.curr[t] == t;
      assert Halt(s).owner[t] == FREE && Halt(s).curr[t] == t;
    }
  }

  /** Terminal 1 is opened by its first visit. */
  lemma SecondShell(s: Procs)
    requires s.Basic() && s.Slots() == 6 && s.active == 0 && s.curr == [0, NOBODY, NOBODY]
    ensures var u := Step(s, Show(1)); u.active == 1 && u.main == 1 && u.curr == [0, 1, NOBODY]
  {
    FirstVisit(s.(active := 1));
  }

  /** The timer then goes back to the shell of terminal 0, whose halt would break the table. */
  lemma FirstShellAgain(s: Procs)
    requires s.Basic() && Kin(s) && s.active == 1 && s.main == 1 && s.curr == [0, 1, NOBODY]
    ensures Step(s, Timer).main == 0 && !Allowed(Step(s, Timer), Exit)
  {
  }

  /** It does happen: from boot, visit terminal 1, let the timer tick, and let the first shell halt. */
  lemma HaltBreaksTable()
    ensures Obeys(Booted(6), [Show(1), Timer]) && !Halt(Run(Booted(6), [Show(1), Timer])).Basic()
  {
    BootKin();
    FirstVisit(Initial(6));
    ShowKin(Booted(6), 1);
    SecondShell(Booted(6));
    var t := Step(Booted(6), Show(1));
    FirstShellAgain(t);
    TickKin(t);
    Lead2(Booted(6), Show(1), Timer, t, Step(t, Timer));
    HaltConsistentIff(Step(t, Timer));
  }

  lemma ShowKin(s: Procs, t: int)
    requires s.Basic() && Kin(s) && 0 <= t < 3 && s.curr[s.active] != NOBODY
    ensures Switch(s, t).Basic() && Kin(Switch(s, t)) && Switch(s, t).curr[Switch(s, t).active] != NOBODY
  {
    var shown := s.(active := t);
    if s.curr[t] == NOBODY {
      FirstShowKin(s, shown);
    } else {
      SameKin(s, shown);
    }
  }

  lemma FirstShowKin(s: Procs, shown: Procs)
    requires s.Basic() && Kin(s) && 0 <= shown.active < 3 && shown == s.(active := shown.active) && s.curr[shown.active] == NOBODY
    ensures Execute(shown).Basic() && Kin(Execute(shown)) && Execute(shown).curr[shown.active] != NOBODY
  {
    SameKin(s, shown);
    ExecuteKin(shown);
    FirstVisit(shown);
  }

  lemma SameKin(s: Procs, u: Procs)
    requires s.Basic() && u.Basic() && Kin(s) && Running(u)
    requires u == s.(main := u.main, active := u.active)
    ensures Kin(u)
  {
  }

  lemma TickKin(s: Procs)
    requires s.Basic() && Kin(s)
    ensures Tick(s).Basic() && Kin(Tick(s))
  {
    var u := Tick(s);
    if u != s {
      var t :| 0 <= t < 3 && s.curr[t] == u.main;
      assert Front(s, t);
      assert Running(u);
      SameKin(s, u);
    }
  }

  lemma StepKin(s: Procs, e: Event)
    requires s.Basic() && Kin(s) && Allowed(s, e) && s.curr[s.active] != NOBODY
    ensures Kin(Step(s, e)) && Step(s, e).curr[Step(s, e).active] != NOBODY
  {
    match e
    case Exec => ExecuteKin(s);
    case Exit => if s.main < 3 { ShellReturns(s); } else { ExitCommonKin(s); }
    case Show(t) => ShowKin(s, t);
    case Timer => TickKin(s);
  }

  lemma {:induction false} RunKin(s: Procs, events: seq<Event>)
    requires s.Basic() && Kin(s) && s.curr[s.active] != NOBODY && Obeys(s, events)
    ensures Sound(Run(s, events)) && Kin(Run(s, events))
    decreases |events|
  {
    if events == [] {
      KinSound(s);
    } else {
      StepKin(s, events[0]);
      RunKin(Step(s, events[0]), events[1..]);
    }
  }

  lemma BootKin()
    ensures Kin(Booted(6)) && Booted(6).curr[0] == 0 && Booted(6).active == 0
  {
    FirstVisit(Initial(6));
  }

  /** In every reachable state of the six-slot table every front process has its line of ancestors. */
  lemma AncestryHolds(events: seq<Event>)
    requires Obeys(Booted(6), events)
    ensures Sound(Run(Booted(6), events))
  {
    BootKin();
    RunKin(Booted(6), events);
  }
}
