/**
 Why the number of slots matters: with one common slot more, the line of ancestors breaks.
 */
module SevenSlots {
  import opened Processes
  import opened Ancestry

  lemma ExecuteInto(s: Procs, i: int, p: int)
    requires s.Basic() && 3 <= i < s.Slots() && Usable(s.owner, s.active, i)
    requires s.owner[s.active] == s.active && forall j :: 3 <= j < i ==> s.owner[j] != FREE
    requires 0 <= p < i && s.owner[p] == s.active && forall j :: p < j < i ==> s.owner[j] != s.active
    ensures Step(s, Exec) == Procs(s.owner[i := s.active], i, s.active, s.curr[s.active := i], s.parent[i := p])
  {
    assert forall j :: 0 <= j < i ==> !Usable(s.owner, s.active, j);
    assert s.owner[i := s.active][p] == s.active;
  }

  lemma ExitTo(s: Procs, t: int, p: int)
    requires s.Basic() && 3 <= s.main && 0 <= t < 3 && s.owner[s.main] == t && s.curr[t] == s.main && s.parent[s.main] == p
    requires forall u :: 0 <= u < 3 && u != t ==> s.curr[u] != s.main
    ensures Step(s, Exit) == Procs(s.owner[s.main := FREE], p, s.active, s.curr[t := p], s.parent)
  {
    assert Release(s).curr == s.curr[t := p];
  }

  /** Three steps in a row. */
  lemma Lead3(s: Procs, a: Event, b: Event, c: Event, t: Procs, u: Procs, v: Procs)
    requires s.Basic() && Allowed(s, a) && t == Step(s, a)
    requires Allowed(t, b) && u == Step(t, b)
    requires Allowed(u, c) && v == Step(u, c)
    ensures Leads(s, [a, b, c], v)
  {
    Lead2(t, b, c, u, v);
    LeadOne(s, a, [b, c], v);
    assert [a] + [b, c] == [a, b, c];
  }

  lemma {:induction false} LeadsOn(s: Procs, a: seq<Event>, u: Procs, b: seq<Event>, v: Procs)
    requires Leads(s, a, u) && Leads(u, b, v)
    ensures Leads(s, a + b, v)
    decreases |a|
  {
    if a == [] {
      assert a + b == b;
    } else {
      assert (a + b)[1..] == a[1..] + b;
      LeadsOn(Step(s, a[0]), a[1..], u, b, v);
    }
  }

  /** Terminal 2 is never opened in this run; `o` are the owners of slots 1 and 3 to 6. */
  predicate At(s: Procs, main: int, active: int, o1: int, o3: int, o4: int, o5: int, o6: int,
               c0: int, c1: int, p3: int, p4: int, p5: int, p6: int) {
    && s.Basic() && s.Slots() == 7 && s.main == main && s.active == active
    && s.owner[0] == 0 && s.owner[1] == o1 && s.owner[2] == FREE
    && s.owner[3] == o3 && s.owner[4] == o4 && s.owner[5] == o5 && s.owner[6] == o6
    && s.curr[0] == c0 && s.curr[1] == c1
    && s.parent[3] == p3 && s.parent[4] == p4 && s.parent[5] == p5 && s.parent[6] == p6
  }

  lemma From0(s0: Procs) returns (s3: Procs)
    requires At(s0, 0, 0, -1, -1, -1, -1, -1, 0, -1, 0, 0, 0, 0)
    ensures Leads(s0, [Exec, Show(1), Exec], s3) && At(s3, 4, 1, 1, 0, 1, -1, -1, 3, 4, 0, 1, 0, 0)
  {
    ExecuteInto(s0, 3, 0);
    var s1 := Step(s0, Exec);
    FirstVisit(s1.(active := 1));
    var s2 := Step(s1, Show(1));
    ExecuteInto(s2, 4, 1);
    s3 := Step(s2, Exec);
    Lead3(s0, Exec, Show(1), Exec, s1, s2, s3);
  }

  lemma From3(s3: Procs) returns (s6: Procs)
    requires At(s3, 4, 1, 1, 0, 1, -1, -1, 3, 4, 0, 1, 0, 0)
    ensures Leads(s3, [Show(0), Exec, Timer], s6) && At(s6, 4, 0, 1, 0, 1, 0, -1, 5, 4, 0, 1, 3, 0)
  {
    var s4 := Step(s3, Show(0));
    ExecuteInto(s4, 5, 3);
    var s5 := Step(s4, Exec);
    s6 := Step(s5, Timer);
    Lead3(s3, Show(0), Exec, Timer, s4, s5, s6);
  }

  lemma From6(s6: Procs) returns (s9: Procs)
    requires At(s6, 4, 0, 1, 0, 1, 0, -1, 5, 4, 0, 1, 3, 0)
    ensures Leads(s6, [Exit, Exec, Exit], s9) && At(s9, 3, 0, 1, 0, -1, 0, -1, 3, 1, 0, 3, 3, 0)
  {
    ExitTo(s6, 1, 1);
    var s7 := Step(s6, Exit);
    ExecuteInto(s7, 4, 3);
    var s8 := Step(s7, Exec);
    ExitTo(s8, 0, 3);
    s9 := Step(s8, Exit);
    Lead3(s6, Exit, Exec, Exit, s7, s8, s9);
  }

  lemma From9(s9: Procs) returns (s12: Procs)
    requires At(s9, 3, 0, 1, 0, -1, 0, -1, 3, 1, 0, 3, 3, 0)
    ensures Leads(s9, [Exit, Show(1), Exec], s12) && At(s12, 3, 1, 1, 1, -1, 0, -1, 0, 3, 1, 3, 3, 0)
  {
    ExitTo(s9, 0, 0);
    var s10 := Step(s9, Exit);
    var s11 := Step(s10, Show(1));
    ExecuteInto(s11, 3, 1);
    s12 := Step(s11, Exec);
    Lead3(s9, Exit, Show(1), Exec, s10, s11, s12);
  }

  lemma From12(s12: Procs) returns (s15: Procs)
    requires At(s12, 3, 1, 1, 1, -1, 0, -1, 0, 3, 1, 3, 3, 0)
    ensures Leads(s12, [Exec, Show(0), Exec], s15) && At(s15, 6, 0, 1, 1, 1, 0, 0, 6, 4, 1, 3, 3, 5)
  {
    ExecuteInto(s12, 4, 3);
    var s13 := Step(s12, Exec);
    var s14 := Step(s13, Show(0));
    ExecuteInto(s14, 6, 5);
    s15 := Step(s14, Exec);
    Lead3(s12, Exec, Show(0), Exec, s13, s14, s15);
  }

  const FIRST_NINE: seq<Event> := [Exec, Show(1), Exec] + [Show(0), Exec, Timer] + [Exit, Exec, Exit]
  const LAST_SIX: seq<Event> := [Exit, Show(1), Exec] + [Exec, Show(0), Exec]
  const SEVEN_SLOT_RUN: seq<Event> := FIRST_NINE + LAST_SIX

  lemma FirstNine(s0: Procs) returns (s9: Procs)
    requires At(s0, 0, 0, -1, -1, -1, -1, -1, 0, -1, 0, 0, 0, 0)
    ensures Leads(s0, FIRST_NINE, s9) && At(s9, 3, 0, 1, 0, -1, 0, -1, 3, 1, 0, 3, 3, 0)
  {
    var s3 := From0(s0);
    var s6 := From3(s3);
    s9 := From6(s6);
    LeadsOn(s0, [Exec, Show(1), Exec], s3, [Show(0), Exec, Timer], s6);
    LeadsOn(s0, [Exec, Show(1), Exec] + [Show(0), Exec, Timer], s6, [Exit, Exec, Exit], s9);
  }

  lemma LastSix(s9: Procs) returns (s15: Procs)
    requires At(s9, 3, 0, 1, 0, -1, 0, -1, 3, 1, 0, 3, 3, 0)
    ensures Leads(s9, LAST_SIX, s15) && At(s15, 6, 0, 1, 1, 1, 0, 0, 6, 4, 1, 3, 3, 5)
  {
    var s12 := From9(s9);
    s15 := From12(s12);
    LeadsOn(s9, [Exit, Show(1), Exec], s12, [Exec, Show(0), Exec], s15);
  }

  /**
   With a seventh slot, slot 5 can outlive its parent 3, see 3 pass to another terminal, and
   then be adopted by slot 6: the front process of terminal 0 gets a stranger as grandparent.
   */
  lemma SevenSlotsBreakAncestry()
    ensures Obeys(Booted(7), SEVEN_SLOT_RUN)
    ensures !Sound(Run(Booted(7), SEVEN_SLOT_RUN))
  {
    FirstVisit(Initial(7));
    var s9 := FirstNine(Booted(7));
    var s15 := LastSix(s9);
    LeadsOn(Booted(7), FIRST_NINE, s9, LAST_SIX, s15);
    assert !Line(s15, 5, 0);
  }
}
