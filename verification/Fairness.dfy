/**
 Bounded fairness of the timer: while programs start only in their own terminal and no
 terminal is opened, the CPU goes round the open terminals, missing none.
 */
module Fairness {
  import opened Processes
  import opened Ancestry

  function OpenCount(s: Procs): (n: nat)
    requires s.Basic()
  {
    (if s.curr[0] == NOBODY then 0 else 1) + (if s.curr[1] == NOBODY then 0 else 1) + (if s.curr[2] == NOBODY then 0 else 1)
  }

  /** The terminal whose process has the CPU. */
  function Turn(s: Procs): int
    requires s.Basic()
  {
    s.owner[s.main]
  }

  function Next(t: int): int { if t == 2 then 0 else t + 1 }

  /** How many ticks terminal `t` waits: the open terminals met going round to it from the running one. */
  function Wait(s: Procs, t: int): (w: nat)
    requires s.Basic() && 0 <= t < 3 && 0 <= Turn(s)
    ensures w <= 2
  {
    if Turn(s) == t then 0
    else if t == Next(Turn(s)) || s.curr[Next(Turn(s))] == NOBODY then 1
    else 2
  }

  /** Programs start in the running process's own terminal; only open terminals are shown. */
  predicate Local(s: Procs, e: Event)
    requires s.Basic()
  {
    match e
    case Exec => s.active == Turn(s)
    case Show(t) => 0 <= t < 3 && s.curr[t] != NOBODY
    case _ => true
  }

  lemma WaitBelowOpen(s: Procs, t: int)
    requires s.Basic() && Sound(s) && 0 <= t < 3 && s.curr[t] != NOBODY
    ensures Wait(s, t) < OpenCount(s)
  {
  }

  /** The doubly incremented index visits the next terminal, the running one, and the one after. */
  lemma NextTaskIs(s: Procs)
    requires s.Basic() && Sound(s)
    ensures var a := Next(Turn(s)); var b := Next(a);
            NextTask(s) == if s.curr[a] != NOBODY then s.curr[a] else s.curr[b]
  {
    var t := Turn(s);
    var a := Next(t);
    var b := Next(a);
    assert (t + 1) % 3 == a && (t + 3) % 3 == t && (t + 5) % 3 == b;
    assert s.curr[a] != NOBODY ==> s.owner[s.curr[a]] == a by { if s.curr[a] != NOBODY { assert Line(s, s.curr[a], a); } }
    assert s.curr[b] != NOBODY ==> s.owner[s.curr[b]] == b by { if s.curr[b] != NOBODY { assert Line(s, s.curr[b], b); } }
  }

  /** A tick brings every waiting terminal exactly one turn closer. */
  lemma TickCloser(s: Procs, t: int)
    requires s.Basic() && Sound(s) && 0 <= t < 3 && s.curr[t] != NOBODY
    ensures Tick(s).Basic() && Tick(s).curr == s.curr && 0 <= Turn(Tick(s))
    ensures 0 < Wait(s, t) ==> Wait(Tick(s), t) == Wait(s, t) - 1
  {
    NextTaskIs(s);
    var a := Next(Turn(s));
    if s.curr[a] != NOBODY {
      assert Line(s, s.curr[a], a);
    }
    if s.curr[Next(a)] != NOBODY {
      assert Line(s, s.curr[Next(a)], Next(a));
    }
  }

  /** Steps other than ticks leave the CPU in its terminal and nobody's wait longer. */
  lemma OthersKeepTurn(s: Procs, e: Event, t: int)
    requires s.Basic() && Sound(s) && Allowed(s, e) && Local(s, e) && e != Timer
    requires 0 <= t < 3 && s.curr[t] != NOBODY
    ensures var u := Step(s, e); Turn(u) == Turn(s) && u.curr[t] != NOBODY && Wait(u, t) == Wait(s, t)
  {
    match e
    case Exec => ExecuteKeepsTurn(s, t);
    case Exit => ExitKeepsTurn(s, t);
    case Show(_) => SameWait(s, Step(s, e), t);
  }

  /** A table in which the same terminals are open and the same one runs has the same waits. */
  lemma SameWait(s: Procs, u: Procs, t: int)
    requires s.Basic() && u.Basic() && 0 <= t < 3 && 0 <= Turn(s) && Turn(u) == Turn(s)
    requires forall r :: 0 <= r < 3 ==> (u.curr[r] == NOBODY <==> s.curr[r] == NOBODY)
    ensures Wait(u, t) == Wait(s, t)
  {
  }

  lemma ExecuteKeepsTurn(s: Procs, t: int)
    requires s.Basic() && Sound(s) && s.active == Turn(s) && 0 <= t < 3 && s.curr[t] != NOBODY
    ensures var u := Step(s, Exec); Turn(u) == Turn(s) && u.curr[t] != NOBODY && Wait(u, t) == Wait(s, t)
  {
    SameWait(s, Step(s, Exec), t);
  }

  lemma ExitKeepsTurn(s: Procs, t: int)
    requires s.Basic() && Sound(s) && Allowed(s, Exit) && 0 <= t < 3 && s.curr[t] != NOBODY
    ensures var u := Step(s, Exit); Turn(u) == Turn(s) && u.curr[t] != NOBODY && Wait(u, t) == Wait(s, t)
  {
    if s.main < 3 {
      ShellReturns(s);
    } else {
      assert Line(s, s.main, Turn(s));
      assert Line(s, s.parent[s.main], Turn(s));
      FrontsOfOthers(s);
      SameWait(s, Step(s, Exit), t);
    }
  }

  lemma FrontsOfOthers(s: Procs)
    requires s.Basic() && Sound(s)
    ensures forall t :: 0 <= t < 3 && s.curr[t] == s.main ==> t == Turn(s)
  {
    forall t | 0 <= t < 3 && s.curr[t] == s.main
      ensures t == Turn(s)
    {
      assert Line(s, s.curr[t], t);
    }
  }

  predicate LocalRun(s: Procs, events: seq<Event>)
    requires s.Basic() && Obeys(s, events)
    decreases |events|
  {
    events == [] || (Local(s, events[0]) && LocalRun(Step(s, events[0]), events[1..]))
  }

  function Ticks(events: seq<Event>): nat {
    if events == [] then 0 else (if events[0] == Timer then 1 else 0) + Ticks(events[1..])
  }

  /** At some point of the run the CPU is with terminal `t`. */
  predicate Reaches(s: Procs, events: seq<Event>, t: int)
    requires s.Basic() && Obeys(s, events)
    decreases |events|
  {
    Turn(s) == t || (events != [] && Reaches(Step(s, events[0]), events[1..], t))
  }

  lemma {:induction false} WaitEnds(s: Procs, events: seq<Event>, t: int)
    requires s.Basic() && Kin(s) && s.curr[s.active] != NOBODY && Obeys(s, events) && LocalRun(s, events)
    requires 0 <= t < 3 && s.curr[t] != NOBODY && Wait(s, t) <= Ticks(events)
    ensures Reaches(s, events, t)
    decreases |events|
  {
    if Turn(s) != t {
      KinSound(s);
      StepKin(s, events[0]);
      if events[0] == Timer {
        TickCloser(s, t);
      } else {
        OthersKeepTurn(s, events[0], t);
      }
      WaitEnds(Step(s, events[0]), events[1..], t);
    }
  }

  /**
   From any reachable state, every open terminal gets the CPU within one tick less than there
   are open terminals.
   */
  lemma BoundedFairness(before: seq<Event>, events: seq<Event>, t: int)
    requires Obeys(Booted(6), before)
    requires var s := Run(Booted(6), before);
             && Obeys(s, events) && LocalRun(s, events)
             && 0 <= t < 3 && s.curr[t] != NOBODY && OpenCount(s) <= Ticks(events) + 1
    ensures Reaches(Run(Booted(6), before), events, t)
  {
    BootKin();
    RunKin(Booted(6), before);
    var s := Run(Booted(6), before);
    WaitBelowOpen(s, t);
    WaitEnds(s, events, t);
  }
}
