/**
 The process table: which terminal owns each slot, which slot runs, which terminal is
 displayed, the process in front of each terminal, and the parent recorded in each slot.
 Slots 0, 1 and 2 are reserved for the shells of the three terminals; the others are common.
 The number of slots is the length of `owner` (6 in the kernel), so that what depends on
 that number can be told from what does not.
 */
module Processes {
  const FREE := -1
  const NOBODY := -1

  datatype Procs = Procs(owner: seq<int>, main: int, active: int, curr: seq<int>, parent: seq<int>) {
    function Slots(): nat { |owner| }

    /** Everything is in range, and every open terminal has its shell, which is its own parent. */
    predicate Basic() {
      && |owner| == |parent| && 3 <= |owner|
      && |curr| == 3 && 0 <= active < 3 && 0 <= main < |owner|
      && (forall i :: 0 <= i < |owner| ==> FREE <= owner[i] < 3 && 0 <= parent[i] < |owner|)
      && (forall i :: 0 <= i < 3 ==> (owner[i] == FREE || owner[i] == i) && (owner[i] == i ==> parent[i] == i))
      && (forall t :: 0 <= t < 3 ==> NOBODY <= curr[t] < |owner| && (curr[t] == NOBODY <==> owner[t] == FREE))
      && (forall i :: 0 <= i < |owner| && owner[i] != FREE ==> owner[owner[i]] == owner[i])
    }
  }

  /** Nothing runs yet; terminal 0 is displayed. */
  function Initial(slots: nat): Procs {
    Procs(seq(slots, i => FREE), 0, 0, [NOBODY, NOBODY, NOBODY], seq(slots, i => 0))
  }

  // ----- Choosing slots -----

  predicate Usable(owner: seq<int>, active: int, i: int)
    requires 0 <= i < |owner|
  {
    owner[i] == FREE && (i == active || 3 <= i)
  }

  /** The first slot from `i` on that the displayed terminal may use, or the number of slots. */
  function PickFrom(owner: seq<int>, active: int, i: nat): (r: nat)
    requires i <= |owner|
    ensures i <= r <= |owner|
    ensures r < |owner| ==> Usable(owner, active, r)
    ensures forall j :: i <= j < r ==> !Usable(owner, active, j)
    decreases |owner| - i
  {
    if i == |owner| || Usable(owner, active, i) then i else PickFrom(owner, active, i + 1)
  }

  function Pick(s: Procs): nat { PickFrom(s.owner, s.active, 0) }

  /** The greatest slot below `idx` owned by terminal `t`. */
  function GreatestBelow(owner: seq<int>, idx: nat, t: int): (r: int)
    requires idx <= |owner|
    ensures -1 <= r < idx
    ensures 0 <= r ==> owner[r] == t
    ensures forall j :: r < j < idx ==> owner[j] != t
  {
    if idx == 0 then -1
    else if owner[idx - 1] == t then idx - 1
    else GreatestBelow(owner, idx - 1, t)
  }

  // ----- Steps -----

  /** Starts a program in the displayed terminal, whoever asks for it. */
  function Execute(s: Procs): Procs
    requires |s.owner| == |s.parent| && |s.curr| == 3 && 0 <= s.active < 3
  {
    var i := Pick(s);
    if i == s.Slots() then s
    else
      var owner := s.owner[i := s.active];
      var p := if i < 3 then i else GreatestBelow(owner, i, s.active);
      Procs(owner, i, s.active, s.curr[s.active := i], s.parent[i := p])
  }

  /** What a halt releases: the slot, and the front of every terminal that showed it. */
  function Release(s: Procs): Procs
    requires s.Basic()
  {
    var p := s.main;
    s.(owner := s.owner[p := FREE],
       curr := seq(3, t requires 0 <= t < 3 => if s.curr[t] == p then s.parent[p] else s.curr[t]))
  }

  /** Ends the running process.  A terminal's shell is started again at once. */
  function Halt(s: Procs): Procs
    requires s.Basic()
  {
    var r := Release(s);
    if s.main < 3 && Pick(r) < r.Slots() then Execute(r) else r.(main := s.parent[s.main])
  }

  /** Displays terminal `t`; the first visit starts its shell. */
  function Switch(s: Procs, t: int): Procs
    requires s.Basic() && 0 <= t < 3
  {
    if s.active == t then s
    else if s.curr[t] == NOBODY then Execute(s.(active := t))
    else s.(active := t)
  }

  predicate Eligible(s: Procs, t: int)
    requires s.Basic() && 0 <= t < 3
  {
    s.curr[t] != s.main && s.curr[t] != NOBODY
  }

  /** The process the timer hands the CPU to, or -1: the next terminal round that has one. */
  function NextTask(s: Procs): (p: int)
    requires s.Basic()
    ensures -1 <= p < s.Slots()
  {
    var t := s.owner[s.main];
    if Eligible(s, (t + 1) % 3) then s.curr[(t + 1) % 3]
    else if Eligible(s, (t + 3) % 3) then s.curr[(t + 3) % 3]
    else if Eligible(s, (t + 5) % 3) then s.curr[(t + 5) % 3]
    else -1
  }

  function Tick(s: Procs): Procs
    requires s.Basic()
  {
    if NextTask(s) == -1 then s else s.(main := NextTask(s))
  }

  datatype Event = Exec | Exit | Show(terminal: int) | Timer

  /** A terminal's shell halts only while that terminal is displayed. */
  predicate Allowed(s: Procs, e: Event)
    requires s.Basic()
  {
    match e
    case Exit => s.main < 3 ==> s.owner[s.main] == s.active
    case Show(t) => 0 <= t < 3
    case _ => true
  }

  function Step(s: Procs, e: Event): (u: Procs)
    requires s.Basic() && Allowed(s, e)
    ensures u.Basic() && u.Slots() == s.Slots()
  {
    match e
    case Exec => ExecuteBasic(s); Execute(s)
    case Exit => HaltBasic(s); Halt(s)
    case Show(t) => if s.curr[t] == NOBODY then ExecuteBasic(s.(active := t)); Switch(s, t) else Switch(s, t)
    case Timer => Tick(s)
  }

  lemma RootFound(owner: seq<int>, idx: nat, t: int)
    requires 0 <= t < idx <= |owner| && owner[t] == t
    ensures t <= GreatestBelow(owner, idx, t)
  {
  }

  /** Before its first visit a terminal gets its own reserved slot. */
  lemma FirstVisit(s: Procs)
    requires s.Basic() && s.owner[s.active] == FREE
    ensures Pick(s) == s.active
  {
    assert Usable(s.owner, s.active, s.active);
    assert forall j :: 0 <= j < s.active ==> !Usable(s.owner, s.active, j);
  }

  lemma ExecuteBasic(s: Procs)
    requires s.Basic()
    ensures Execute(s).Basic() && Execute(s).Slots() == s.Slots()
  {
    var i := Pick(s);
    if s.owner[s.active] == FREE {
      FirstVisit(s);
    } else if i < s.Slots() {
      RootFound(s.owner[i := s.active], i, s.active);
    }
  }

  /** Whenever a common slot is picked, the search for a parent finds one. */
  lemma ParentFound(s: Procs)
    requires s.Basic() && 3 <= Pick(s) < s.Slots()
    ensures 0 <= GreatestBelow(s.owner[Pick(s) := s.active], Pick(s), s.active)
  {
    if s.owner[s.active] == FREE {
      FirstVisit(s);
    }
    RootFound(s.owner[Pick(s) := s.active], Pick(s), s.active);
  }

  /** A shell that halts while displayed comes back as it was. */
  lemma ShellReturns(s: Procs)
    requires s.Basic() && s.main < 3 && Allowed(s, Exit) && s.curr[s.active] == s.main
    ensures Halt(s) == s
  {
    var r := Release(s);
    assert r.curr == s.curr;
    assert Usable(r.owner, r.active, s.main);
    assert forall j :: 0 <= j < s.main ==> !Usable(r.owner, r.active, j);
  }

  lemma HaltBasic(s: Procs)
    requires s.Basic() && Allowed(s, Exit)
    ensures Halt(s).Basic() && Halt(s).Slots() == s.Slots()
  {
    var r := Release(s);
    if s.main < 3 {
      assert Usable(r.owner, r.active, s.main);
      assert forall j :: 0 <= j < s.main ==> !Usable(r.owner, r.active, j);
    }
  }

  // ----- Whole runs -----

  /** The kernel's first act: the shell of terminal 0. */
  function Booted(slots: nat): (s: Procs)
    requires 3 <= slots
    ensures s.Basic() && s.Slots() == slots
  {
    ExecuteBasic(Initial(slots));
    Execute(Initial(slots))
  }

  predicate Obeys(s: Procs, events: seq<Event>)
    requires s.Basic()
    decreases |events|
  {
    events == [] || (Allowed(s, events[0]) && Obeys(Step(s, events[0]), events[1..]))
  }

  function Run(s: Procs, events: seq<Event>): (u: Procs)
    requires s.Basic() && Obeys(s, events)
    ensures u.Basic() && u.Slots() == s.Slots()
    decreases |events|
  {
    if events == [] then s else Run(Step(s, events[0]), events[1..])
  }

  /** The run of `events` from `s` ends in `u`. */
  predicate Leads(s: Procs, events: seq<Event>, u: Procs) {
    s.Basic() && Obeys(s, events) && Run(s, events) == u
  }

  lemma LeadOne(s: Procs, e: Event, rest: seq<Event>, v: Procs)
    requires s.Basic() && Allowed(s, e) && Leads(Step(s, e), rest, v)
    ensures Leads(s, [e] + rest, v)
  {
    assert ([e] + rest)[1..] == rest;
  }

  lemma Lead2(s: Procs, a: Event, b: Event, t: Procs, u: Procs)
    requires s.Basic() && Allowed(s, a) && t == Step(s, a)
    requires Allowed(t, b) && u == Step(t, b)
    ensures Leads(s, [a, b], u)
  {
    LeadOne(t, b, [], u);
    LeadOne(s, a, [b], u);
    assert [a] + [b] == [a, b] && [b] + [] == [b];
  }
}
