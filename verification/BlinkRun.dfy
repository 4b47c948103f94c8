/**
 What a blinking cell shows while other cells come, go and are synchronised: the ticks since it
 was added decide, nothing else.
 */
module BlinkRun {
  import opened Bytes
  import opened BlinkClock
  import opened BlinkList

  /** An operation that neither adds, removes nor changes a cell at the location. */
  predicate Elsewhere(op: Op, location: uint16) {
    match op
    case AddOp(cell) => cell.location != location
    case RemoveOp(l) => l != location
    case SyncOp(_, to) => to != location
    case TickOp => true
  }

  function TickCount(ops: seq<Op>): nat {
    if ops == [] then 0 else (if ops[0].TickOp? then 1 else 0) + TickCount(ops[1..])
  }

  /** Cell `j` of the list is `d`, alone at its location, where `b` is drawn. */
  predicate Tracks(video: seq<byte>, cells: seq<Cell>, j: int, d: Cell, b: byte) {
    && |video| >= 2 * SCREEN_CELLS && OnScreen(cells)
    && 0 <= j < |cells| && cells[j] == d && Alone(cells, j) && video[2 * d.location] == b
  }

  lemma TickTracks(video: seq<byte>, cells: seq<Cell>, j: int, d: Cell, b: byte)
    requires Tracks(video, cells, j, d, b)
    ensures Tracks(Draw(video, cells), TickAll(cells), j, TickCell(d), if TimeUp(d.countdown) then Face(TickCell(d)) else b)
  {
    DrawAlone(video, cells, j);
  }

  lemma RemoveTracks(video: seq<byte>, cells: seq<Cell>, j: int, d: Cell, b: byte, k: int) returns (i: int)
    requires Tracks(video, cells, j, d, b) && 0 <= k < |cells| && k != j
    ensures Tracks(video, Without(cells, k), i, d, b)
  {
    i := if k < j then j - 1 else j;
    assert forall m :: 0 <= m < |Without(cells, k)| ==> Without(cells, k)[m] == cells[if m < k then m else m + 1];
  }

  lemma AddTracks(video: seq<byte>, cells: seq<Cell>, j: int, d: Cell, b: byte, c: Cell)
    requires Tracks(video, cells, j, d, b) && c.location < SCREEN_CELLS && c.location != d.location
    ensures Tracks(video[2 * c.location := c.onChar], [Fresh(c)] + cells, j + 1, d, b)
  {
    assert forall m :: 0 < m <= |cells| ==> ([Fresh(c)] + cells)[m] == cells[m - 1];
  }

  /** Operations elsewhere leave the cell as it is, wherever in the list; a tick is one of its own. */
  lemma StepTracks(video: seq<byte>, cells: seq<Cell>, j: int, d: Cell, b: byte, op: Op) returns (i: int)
    requires Tracks(video, cells, j, d, b) && Elsewhere(op, d.location)
    ensures Tracks(StepVideo(video, cells, op), StepCells(cells, op), i,
                   if op.TickOp? then TickCell(d) else d, if op.TickOp? && TimeUp(d.countdown) then Face(TickCell(d)) else b)
  {
    i := j;
    match op
    case AddOp(c) =>
      if c.location < SCREEN_CELLS && |cells| != POOL {
        AddTracks(video, cells, j, d, b, c);
        i := j + 1;
      }
    case RemoveOp(l) =>
      var k := FindAt(cells, l, 0);
      if k != -1 {
        i := RemoveTracks(video, cells, j, d, b, k);
      }
    case SyncOp(_, _) =>
    case TickOp => TickTracks(video, cells, j, d, b);
  }

  lemma TickFirst(c: Cell, k: nat)
    ensures TickN(TickCell(c), k) == TickN(c, k + 1)
  {
    if k > 0 {
      TickFirst(c, k - 1);
    }
  }

  /** What is drawn after `k` ticks where `b` was: `b` until the time is up, then the face. */
  function Drawn(d: Cell, b: byte, k: nat): byte {
    if k < Ticks(d.countdown) then b else Face(TickN(d, k))
  }

  /** Until its time is up a cell only counts down. */
  lemma {:induction false} CountsDown(d: Cell, k: nat)
    requires k < Ticks(d.countdown)
    ensures k > 0 ==> k < d.countdown
    ensures TickN(d, k) == if k == 0 then d else d.(countdown := d.countdown - k)
  {
    if k > 0 {
      CountsDown(d, k - 1);
    }
  }

  lemma DrawnOneOn(d: Cell, b: byte, k: nat)
    ensures Drawn(TickCell(d), if TimeUp(d.countdown) then Face(TickCell(d)) else b, k) == Drawn(d, b, k + 1)
  {
    var e := TickCell(d);
    TickFirst(d, k);
    if k < Ticks(e.countdown) {
      CountsDown(e, k);
    }
  }

  lemma {:induction false} RunTracks(video: seq<byte>, cells: seq<Cell>, j: int, d: Cell, b: byte, ops: seq<Op>) returns (i: int)
    requires Tracks(video, cells, j, d, b) && forall op :: op in ops ==> Elsewhere(op, d.location)
    ensures Tracks(RunVideo(video, cells, ops), RunCells(cells, ops), i, TickN(d, TickCount(ops)), Drawn(d, b, TickCount(ops)))
    decreases |ops|
  {
    if ops == [] {
      i := j;
    } else {
      i := StepTracks(video, cells, j, d, b, ops[0]);
      var e := if ops[0].TickOp? then TickCell(d) else d;
      var f := if ops[0].TickOp? && TimeUp(d.countdown) then Face(TickCell(d)) else b;
      i := RunTracks(StepVideo(video, cells, ops[0]), StepCells(cells, ops[0]), i, e, f, ops[1..]);
      if ops[0].TickOp? {
        TickFirst(d, TickCount(ops[1..]));
        DrawnOneOn(d, b, TickCount(ops[1..]));
      }
    }
  }

  lemma RunDrawn(video: seq<byte>, cells: seq<Cell>, j: int, d: Cell, b: byte, ops: seq<Op>, k: nat)
    requires Tracks(video, cells, j, d, b) && (forall op :: op in ops ==> Elsewhere(op, d.location)) && k == TickCount(ops)
    ensures RunVideo(video, cells, ops)[2 * d.location] == Drawn(d, b, k)
  {
    var _ := RunTracks(video, cells, j, d, b, ops);
    KeepsCharacters(d, k);
  }

  lemma {:induction false} KeepsCharacters(d: Cell, k: nat)
    ensures var e := TickN(d, k); e.location == d.location && e.onChar == d.onChar && e.offChar == d.offChar
  {
    if k > 0 {
      KeepsCharacters(d, k - 1);
    }
  }

  lemma FreshDrawn(c: Cell, k: nat)
    ensures Drawn(Fresh(c), c.onChar, k) == if k % Period(c) < Ticks(c.onLength) then c.onChar else c.offChar
  {
    ClosedForm(c, k);
    if k < Ticks(c.onLength) {
      ModIs(k, Period(c), 0, k);
    }
  }

  lemma AddedTracks(video: seq<byte>, cells: seq<Cell>, c: Cell)
    requires |video| >= 2 * SCREEN_CELLS && OnScreen(cells) && |cells| < POOL && c.location < SCREEN_CELLS
    requires FindAt(cells, c.location, 0) == -1
    ensures StepCells(cells, AddOp(c)) == [Fresh(c)] + cells
    ensures Tracks(StepVideo(video, cells, AddOp(c)), StepCells(cells, AddOp(c)), 0, Fresh(c), c.onChar)
  {
    assert forall m :: 0 < m <= |cells| ==> ([Fresh(c)] + cells)[m] == cells[m - 1];
  }

  /**
   A cell added where none was shows its on-character, after any operations elsewhere, exactly
   while the ticks since modulo its period are fewer than its on-time.
   */
  lemma {:induction false} BlinkOverRun(video: seq<byte>, cells: seq<Cell>, c: Cell, ops: seq<Op>)
    requires |video| >= 2 * SCREEN_CELLS && OnScreen(cells) && |cells| < POOL && c.location < SCREEN_CELLS
    requires FindAt(cells, c.location, 0) == -1 && forall op :: op in ops ==> Elsewhere(op, c.location)
    ensures RunVideo(StepVideo(video, cells, AddOp(c)), StepCells(cells, AddOp(c)), ops)[2 * c.location] ==
            if TickCount(ops) % Period(c) < Ticks(c.onLength) then c.onChar else c.offChar
  {
    AddedTracks(video, cells, c);
    RunDrawn(StepVideo(video, cells, AddOp(c)), StepCells(cells, AddOp(c)), 0, Fresh(c), c.onChar, ops, TickCount(ops));
    FreshDrawn(c, TickCount(ops));
  }

  // ----- A cell that is synchronised -----

  /** SYNC changes the target's lengths, countdown and status to the source's; its place, its two characters and every other cell stay. */
  lemma SyncKeepsCharacters(cells: seq<Cell>, from: uint16, to: uint16, i: int, j: int)
    requires i == FindAt(cells, from, 0) != -1 && j == FindAt(cells, to, 0) != -1
    ensures var after := StepCells(cells, SyncOp(from, to));
            && |after| == |cells| && (forall k :: 0 <= k < |cells| && k != j ==> after[k] == cells[k])
            && after[j] == Cell(to, cells[j].onChar, cells[j].offChar,
                                cells[i].onLength, cells[i].offLength, cells[i].countdown, cells[i].status)
            && FindAt(after, to, 0) == j
  {
    FoundAt(StepCells(cells, SyncOp(from, to)), to, j);
  }

  lemma FoundAt(cells: seq<Cell>, location: int, j: int)
    requires 0 <= j < |cells| && cells[j].location == location && forall k :: 0 <= k < j ==> cells[k].location != location
    ensures FindAt(cells, location, 0) == j
  {
  }

  /** An operation that neither adds nor removes a cell at the location; it may synchronise the cell there. */
  predicate Spares(op: Op, location: uint16) {
    (op.AddOp? ==> op.cell.location != location) && (op.RemoveOp? ==> op.location != location)
  }

  /** Cell `j` of the list has the place and the characters of `c`, is alone there, and one of them is shown. */
  predicate Bears(video: seq<byte>, cells: seq<Cell>, j: int, c: Cell) {
    && |video| >= 2 * SCREEN_CELLS && OnScreen(cells) && 0 <= j < |cells| && Alone(cells, j)
    && cells[j].location == c.location && cells[j].onChar == c.onChar && cells[j].offChar == c.offChar
    && (video[2 * c.location] == c.onChar || video[2 * c.location] == c.offChar)
  }

  lemma SyncBears(video: seq<byte>, cells: seq<Cell>, j: int, c: Cell, from: uint16, to: uint16)
    requires Bears(video, cells, j, c)
    ensures Bears(StepVideo(video, cells, SyncOp(from, to)), StepCells(cells, SyncOp(from, to)), j, c)
  {
    var f, t := FindAt(cells, from, 0), FindAt(cells, to, 0);
    if f != -1 && t != -1 {
      SyncKeepsCharacters(cells, from, to, f, t);
    }
  }

  lemma RemoveBears(video: seq<byte>, cells: seq<Cell>, j: int, c: Cell, k: int) returns (i: int)
    requires Bears(video, cells, j, c) && 0 <= k < |cells| && k != j
    ensures Bears(video, Without(cells, k), i, c)
  {
    i := if k < j then j - 1 else j;
    assert forall m :: 0 <= m < |Without(cells, k)| ==> Without(cells, k)[m] == cells[if m < k then m else m + 1];
  }

  lemma AddBears(video: seq<byte>, cells: seq<Cell>, j: int, c: Cell, d: Cell)
    requires Bears(video, cells, j, c) && d.location < SCREEN_CELLS && d.location != c.location
    ensures Bears(video[2 * d.location := d.onChar], [Fresh(d)] + cells, j + 1, c)
  {
    assert forall m :: 0 < m <= |cells| ==> ([Fresh(d)] + cells)[m] == cells[m - 1];
  }

  lemma StepBears(video: seq<byte>, cells: seq<Cell>, j: int, c: Cell, op: Op) returns (i: int)
    requires Bears(video, cells, j, c) && Spares(op, c.location)
    ensures Bears(StepVideo(video, cells, op), StepCells(cells, op), i, c)
  {
    i := j;
    match op
    case AddOp(d) =>
      if d.location < SCREEN_CELLS && |cells| != POOL {
        AddBears(video, cells, j, c, d);
        i := j + 1;
      }
    case RemoveOp(l) =>
      var k := FindAt(cells, l, 0);
      if k != -1 {
        i := RemoveBears(video, cells, j, c, k);
      }
    case SyncOp(from, to) => SyncBears(video, cells, j, c, from, to);
    case TickOp => DrawAlone(video, cells, j);
  }

  lemma {:induction false} RunBears(video: seq<byte>, cells: seq<Cell>, j: int, c: Cell, ops: seq<Op>) returns (i: int)
    requires Bears(video, cells, j, c) && forall op :: op in ops ==> Spares(op, c.location)
    ensures Bears(RunVideo(video, cells, ops), RunCells(cells, ops), i, c)
    decreases |ops|
  {
    if ops == [] {
      i := j;
    } else {
      i := StepBears(video, cells, j, c, ops[0]);
      i := RunBears(StepVideo(video, cells, ops[0]), StepCells(cells, ops[0]), i, c, ops[1..]);
    }
  }

  /**
   After any operations that neither add nor remove a cell at its place, synchronising it
   included, a cell added where none was is still found there with its own two characters, and
   one of them is shown.
   */
  lemma CharactersStay(video: seq<byte>, cells: seq<Cell>, c: Cell, ops: seq<Op>)
    requires |video| >= 2 * SCREEN_CELLS && OnScreen(cells) && |cells| < POOL && c.location < SCREEN_CELLS
    requires FindAt(cells, c.location, 0) == -1 && forall op :: op in ops ==> Spares(op, c.location)
    ensures var shown := RunVideo(StepVideo(video, cells, AddOp(c)), StepCells(cells, AddOp(c)), ops);
            var after := RunCells(StepCells(cells, AddOp(c)), ops);
            var j := FindAt(after, c.location, 0);
            && j != -1 && after[j].onChar == c.onChar && after[j].offChar == c.offChar
            && (shown[2 * c.location] == c.onChar || shown[2 * c.location] == c.offChar)
  {
    AddedTracks(video, cells, c);
    var i := RunBears(StepVideo(video, cells, AddOp(c)), StepCells(cells, AddOp(c)), 0, c, ops);
    FoundAt(RunCells(StepCells(cells, AddOp(c)), ops), c.location, i);
  }

  /**
   After SYNC the target shows its off-character until the source's time is up, and from then on
   its own characters in the source's phase, whatever is done elsewhere.
   */
  lemma SyncOverRun(video: seq<byte>, cells: seq<Cell>, from: uint16, to: uint16, i: int, j: int, ops: seq<Op>, k: nat)
    requires |video| >= 2 * SCREEN_CELLS && OnScreen(cells) && k == TickCount(ops)
    requires i == FindAt(cells, from, 0) != -1 && j == FindAt(cells, to, 0) != -1 && Alone(cells, j)
    requires forall op :: op in ops ==> Elsewhere(op, to)
    ensures RunVideo(StepVideo(video, cells, SyncOp(from, to)), StepCells(cells, SyncOp(from, to)), ops)[2 * to] ==
            if k >= Ticks(cells[i].countdown) && IsOn(TickN(cells[i], k)) then cells[j].onChar else cells[j].offChar
  {
    var op := SyncOp(from, to);
    SyncKeepsCharacters(cells, from, to, i, j);
    var d := StepCells(cells, op)[j];
    RunDrawn(StepVideo(video, cells, op), StepCells(cells, op), j, d, cells[j].offChar, ops, k);
    SyncDrawn(cells[i], cells[j], d, k);
  }

  lemma SyncDrawn(source: Cell, target: Cell, d: Cell, k: nat)
    requires InStep(d, source) && d.onChar == target.onChar && d.offChar == target.offChar
    ensures Drawn(d, target.offChar, k) ==
            if k >= Ticks(source.countdown) && IsOn(TickN(source, k)) then target.onChar else target.offChar
  {
    StayInStep(d, source, k);
    KeepsCharacters(d, k);
  }
}
