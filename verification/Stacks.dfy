/**
 Stack discipline, for any number of slots.  As long as each new process lands above the one
 in front of its terminal, a terminal's live slots are exactly the chain of recorded parents
 of its front process, the recorded parent is the caller, and halts return in LIFO order.
 */
module Stacks {
  import opened Processes

  /** `k` is the parent chain of terminal `t`, shell first, and holds exactly its live slots. */
  ghost predicate IsStack(s: Procs, t: int, k: seq<int>)
    requires s.Basic() && 0 <= t < 3
  {
    && (k == [] <==> s.curr[t] == NOBODY)
    && (k != [] ==> k[0] == t && k[|k| - 1] == s.curr[t])
    && (forall i :: 0 < i < |k| ==> 3 <= k[i] < s.Slots() && s.parent[k[i]] == k[i - 1])
    && (forall i, j :: 0 <= i < j < |k| ==> k[i] < k[j])
    && (forall i :: 0 <= i < s.Slots() ==> (s.owner[i] == t <==> i in k))
  }

  /** One stack a terminal, and the running process on top of one of them. */
  ghost predicate Stacked(s: Procs, stacks: seq<seq<int>>)
    requires s.Basic()
  {
    && |stacks| == 3
    && (forall t :: 0 <= t < 3 ==> IsStack(s, t, stacks[t]))
    && s.owner[s.main] != FREE && s.curr[s.owner[s.main]] == s.main
  }

  /** The new process goes above the front of the displayed terminal, or there is no slot. */
  predicate Ordered(s: Procs, e: Event)
    requires s.Basic()
  {
    e == Exec ==> Pick(s) > s.curr[s.active]
  }

  /** Push on starting, pop on halting (a shell is pushed back at once), nothing otherwise. */
  function StackStep(stacks: seq<seq<int>>, s: Procs, e: Event): seq<seq<int>>
    requires s.Basic() && Allowed(s, e) && |stacks| == 3
  {
    match e
    case Exec =>
      if Pick(s) == s.Slots() then stacks else stacks[s.active := stacks[s.active] + [Pick(s)]]
    case Exit =>
      var t := s.owner[s.main];
      if t == FREE || |stacks[t]| <= 1 then stacks else stacks[t := stacks[t][..|stacks[t]| - 1]]
    case Show(t) => if s.active != t && stacks[t] == [] then stacks[t := [t]] else stacks
    case Timer => stacks
  }

  lemma {:induction false} GreatestIs(owner: seq<int>, idx: nat, t: int, p: nat)
    requires p < idx <= |owner| && owner[p] == t && forall j :: p < j < idx ==> owner[j] != t
    ensures GreatestBelow(owner, idx, t) == p
  {
  }

  /** `u` is `s` with a process of `t` started in free slot `i`, above the front of `t`. */
  ghost predicate Pushed(s: Procs, t: int, k: seq<int>, i: int, u: Procs)
    requires s.Basic()
  {
    && u.Basic() && 0 <= t < 3 && IsStack(s, t, k)
    && s.curr[t] < i < s.Slots() && s.owner[i] == FREE && (if i < 3 then i == t && k == [] else k != [])
    && u.owner == s.owner[i := t] && u.curr == s.curr[t := i]
    && u.parent == s.parent[i := if i < 3 then i else GreatestBelow(u.owner, i, t)]
  }

  lemma PushedParent(s: Procs, t: int, k: seq<int>, i: int, u: Procs)
    requires s.Basic() && Pushed(s, t, k, i, u) && k != []
    ensures u.parent[i] == s.curr[t] == k[|k| - 1] < i
  {
    var top := k[|k| - 1];
    assert top in k;
    assert forall j :: top < j < i ==> j !in k;
    GreatestIs(u.owner, i, t, top);
  }

  lemma PushedSlots(s: Procs, t: int, k: seq<int>, i: int, u: Procs)
    requires s.Basic() && Pushed(s, t, k, i, u)
    ensures forall j :: 0 <= j < u.Slots() ==> (u.owner[j] == t <==> j in k + [i])
  {
    assert forall j :: j in k + [i] <==> j in k || j == i;
  }

  lemma Push(s: Procs, t: int, k: seq<int>, i: int, u: Procs)
    requires s.Basic() && Pushed(s, t, k, i, u)
    ensures IsStack(u, t, k + [i])
  {
    PushedSlots(s, t, k, i, u);
    if k != [] {
      PushedParent(s, t, k, i, u);
      assert forall j :: 0 <= j < |k| ==> k[j] in k;
    }
  }

  lemma Undisturbed(s: Procs, u: Procs, t: int, k: seq<int>, i: int)
    requires s.Basic() && u.Basic() && s.Slots() == u.Slots() && 0 <= t < 3 && IsStack(s, t, k)
    requires 0 <= i < s.Slots() && s.owner[i] != t && u.owner[i] != t && u.curr[t] == s.curr[t]
    requires forall j :: 0 <= j < s.Slots() && j != i ==> u.owner[j] == s.owner[j] && u.parent[j] == s.parent[j]
    ensures IsStack(u, t, k)
  {
    forall j | 0 < j < |k|
      ensures u.parent[k[j]] == k[j - 1]
    {
      assert k[j] in k;
    }
  }

  /** The process on top of the stack of `t` halts. */
  lemma Pop(s: Procs, t: int, k: seq<int>, u: Procs)
    requires s.Basic() && u.Basic() && 0 <= t < 3 && IsStack(s, t, k) && s.curr[t] == s.main && 3 <= s.main
    requires u.owner == s.owner[s.main := FREE] && u.curr[t] == s.parent[s.main] && u.parent == s.parent
    ensures |k| > 1 && IsStack(u, t, k[..|k| - 1])
  {
    var v := k[..|k| - 1];
    forall j | 0 <= j < u.Slots()
      ensures u.owner[j] == t <==> j in v
    {
      assert k == v + [s.main];
      assert j in k <==> j in v || j == s.main;
    }
  }

  lemma ExecuteStacked(s: Procs, stacks: seq<seq<int>>)
    requires s.Basic() && |stacks| == 3 && Ordered(s, Exec)
    requires forall t :: 0 <= t < 3 ==> IsStack(s, t, stacks[t])
    requires Pick(s) < s.Slots()
    ensures Execute(s).Basic()
    ensures Stacked(Execute(s), stacks[s.active := stacks[s.active] + [Pick(s)]])
  {
    ExecuteBasic(s);
    var u := Execute(s);
    var i := Pick(s);
    if s.curr[s.active] == NOBODY {
      FirstVisit(s);
    }
    Push(s, s.active, stacks[s.active], i, u);
    forall t | 0 <= t < 3 && t != s.active
      ensures IsStack(u, t, stacks[t])
    {
      Undisturbed(s, u, t, stacks[t], i);
    }
  }

  lemma ExitStacked(s: Procs, stacks: seq<seq<int>>)
    requires s.Basic() && Allowed(s, Exit) && Stacked(s, stacks)
    ensures Stacked(Step(s, Exit), StackStep(stacks, s, Exit))
  {
    var t := s.owner[s.main];
    var k := stacks[t];
    var u := Step(s, Exit);
    if s.main < 3 {
      ShellReturns(s);
      assert |k| == 1;
    } else {
      assert forall t' :: 0 <= t' < 3 && t' != t ==> s.curr[t'] != s.main by {
        forall t' | 0 <= t' < 3 && s.curr[t'] == s.main
          ensures t' == t
        {
          assert s.main in stacks[t'];
        }
      }
      Pop(s, t, k, u);
      forall t' | 0 <= t' < 3 && t' != t
        ensures IsStack(u, t', stacks[t'])
      {
        Undisturbed(s, u, t', stacks[t'], s.main);
      }
      assert u.main in k;
    }
  }

  lemma ShowStacked(s: Procs, stacks: seq<seq<int>>, t: int)
    requires s.Basic() && 0 <= t < 3 && Stacked(s, stacks)
    ensures Stacked(Step(s, Show(t)), StackStep(stacks, s, Show(t)))
  {
    var shown := s.(active := t);
    assert forall t' :: 0 <= t' < 3 ==> IsStack(shown, t', stacks[t']);
    if s.curr[t] == NOBODY && s.active != t {
      FirstVisit(shown);
      ExecuteStacked(shown, stacks);
      assert stacks[t] + [t] == [t];
    }
  }

  lemma TickStacked(s: Procs, stacks: seq<seq<int>>)
    requires s.Basic() && Stacked(s, stacks)
    ensures Stacked(Tick(s), stacks)
  {
    var u := Tick(s);
    assert forall t :: 0 <= t < 3 ==> IsStack(u, t, stacks[t]);
    if u != s {
      var t :| 0 <= t < 3 && s.curr[t] == u.main;
      assert IsStack(s, t, stacks[t]);
      assert u.main in stacks[t];
    }
  }

  lemma StepStacked(s: Procs, stacks: seq<seq<int>>, e: Event)
    requires s.Basic() && Allowed(s, e) && Stacked(s, stacks) && Ordered(s, e)
    ensures Stacked(Step(s, e), StackStep(stacks, s, e))
  {
    match e
    case Exec =>
      if Pick(s) < s.Slots() {
        ExecuteStacked(s, stacks);
      }
    case Exit => ExitStacked(s, stacks);
    case Show(t) => ShowStacked(s, stacks, t);
    case Timer => TickStacked(s, stacks);
  }

  // ----- Whole runs -----

  predicate OrderedRun(s: Procs, events: seq<Event>)
    requires s.Basic() && Obeys(s, events)
    decreases |events|
  {
    events == [] || (Ordered(s, events[0]) && OrderedRun(Step(s, events[0]), events[1..]))
  }

  function RunStacks(stacks: seq<seq<int>>, s: Procs, events: seq<Event>): seq<seq<int>>
    requires s.Basic() && Obeys(s, events) && |stacks| == 3
    decreases |events|
  {
    if events == [] then stacks
    else RunStacks(StackStep(stacks, s, events[0]), Step(s, events[0]), events[1..])
  }

  lemma {:induction false} RunStacked(s: Procs, stacks: seq<seq<int>>, events: seq<Event>)
    requires s.Basic() && Obeys(s, events) && OrderedRun(s, events) && Stacked(s, stacks)
    ensures Stacked(Run(s, events), RunStacks(stacks, s, events))
    decreases |events|
  {
    if events != [] {
      StepStacked(s, stacks, events[0]);
      RunStacked(Step(s, events[0]), StackStep(stacks, s, events[0]), events[1..]);
    }
  }

  /** From boot, the table is three call stacks driven by push and pop. */
  lemma StackDiscipline(slots: nat, events: seq<Event>)
    requires 3 <= slots && Obeys(Booted(slots), events) && OrderedRun(Booted(slots), events)
    ensures Stacked(Run(Booted(slots), events), RunStacks([[0], [], []], Booted(slots), events))
  {
    FirstVisit(Initial(slots));
    assert IsStack(Booted(slots), 0, [0]);
    RunStacked(Booted(slots), [[0], [], []], events);
  }

  /** A process starting a program in its own terminal is recorded as the parent iff the slot lies above it. */
  lemma ParentIsCaller(s: Procs, stacks: seq<seq<int>>)
    requires s.Basic() && Stacked(s, stacks) && s.owner[s.main] == s.active && Pick(s) < s.Slots()
    ensures Execute(s).parent[Pick(s)] == s.main <==> Pick(s) > s.main
  {
    ExecuteBasic(s);
    var i := Pick(s);
    if i > s.main {
      PushedParent(s, s.active, stacks[s.active], i, Execute(s));
    } else {
      RootFound(s.owner[i := s.active], i, s.active);
    }
  }

  /** A call in one's own terminal followed by the callee's halt is back at the caller, nothing else changed. */
  lemma CallReturns(s: Procs, stacks: seq<seq<int>>)
    requires s.Basic() && Stacked(s, stacks) && s.owner[s.main] == s.active
    requires Ordered(s, Exec) && Pick(s) < s.Slots()
    ensures Step(Step(s, Exec), Exit) == s.(parent := s.parent[Pick(s) := s.main])
  {
    var u := Step(s, Exec);
    ParentIsCaller(s, stacks);
    assert forall t :: 0 <= t < 3 && s.curr[t] != NOBODY ==> s.curr[t] in stacks[t];
    assert Release(u).curr == s.curr;
    assert Release(u).owner == s.owner;
  }

  // ----- One terminal in use -----

  /** Only terminal 0 is open, and it fills the common slots from the bottom. */
  predicate OnlyOne(s: Procs)
    requires s.Basic()
  {
    && s.active == 0 && s.owner[0] == 0 && s.curr == [s.main, NOBODY, NOBODY] && s.main != 1 && s.main != 2
    && (forall i :: 3 <= i < s.Slots() ==> s.owner[i] == (if i <= s.main then 0 else FREE))
    && (forall i :: 3 <= i <= s.main ==> s.parent[i] == (if i == 3 then 0 else i - 1))
  }

  lemma OnlyOnePick(s: Procs)
    requires s.Basic() && OnlyOne(s)
    ensures s.main < Pick(s)
    ensures Pick(s) < s.Slots() ==> Pick(s) == if s.main == 0 then 3 else s.main + 1
  {
    var next := if s.main == 0 then 3 else s.main + 1;
    assert forall j :: 0 <= j < s.Slots() ==> (Usable(s.owner, s.active, j) <==> next <= j);
    if Pick(s) < s.Slots() {
      assert Usable(s.owner, s.active, next);
    }
  }

  lemma OnlyOneExecute(s: Procs)
    requires s.Basic() && OnlyOne(s)
    ensures Step(s, Exec).Basic() && OnlyOne(Step(s, Exec))
  {
    OnlyOnePick(s);
    var i := Pick(s);
    if i < s.Slots() {
      GreatestIs(s.owner[i := 0], i, 0, if s.main == 0 then 0 else i - 1);
    }
  }

  lemma OnlyOneStep(s: Procs, e: Event)
    requires s.Basic() && OnlyOne(s) && Allowed(s, e) && (e.Show? ==> e.terminal == 0)
    ensures Ordered(s, e) && OnlyOne(Step(s, e))
  {
    OnlyOnePick(s);
    match e
    case Exec => OnlyOneExecute(s);
    case Exit =>
      if s.main < 3 {
        ShellReturns(s);
      }
    case _ =>
  }

  lemma {:induction false} OnlyOneRun(s: Procs, events: seq<Event>)
    requires s.Basic() && OnlyOne(s) && Obeys(s, events)
    requires forall e :: e in events && e.Show? ==> e.terminal == 0
    ensures OrderedRun(s, events)
    decreases |events|
  {
    if events != [] {
      OnlyOneStep(s, events[0]);
      OnlyOneRun(Step(s, events[0]), events[1..]);
    }
  }

  /** While one terminal is in use every process lands above its caller. */
  lemma OneTerminalOrdered(slots: nat, events: seq<Event>)
    requires 3 <= slots && Obeys(Booted(slots), events)
    requires forall e :: e in events && e.Show? ==> e.terminal == 0
    ensures OrderedRun(Booted(slots), events)
  {
    FirstVisit(Initial(slots));
    OnlyOneRun(Booted(slots), events);
  }
}
