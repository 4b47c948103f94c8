/**
 The blink list of the fish program: a singly linked list threaded through a pool of 2000
 nodes in which a location of zero marks a free node, refined to a plain sequence of cells.
 */
module BlinkList {
  import opened Bytes
  import opened BlinkClock

  const POOL := 2000
  const NULL := -1

  /** A pool entry; `next` is the index of the next node, or NULL. */
  datatype Node = Node(cell: Cell, next: int)

  // ----- The list inside the pool -----

  predicate Inside(pool: seq<Node>, spine: seq<int>) {
    forall k :: 0 <= k < |spine| ==> 0 <= spine[k] < |pool|
  }

  /** The `k`-th node of the list points to the one after it. */
  predicate Link(pool: seq<Node>, spine: seq<int>, k: int)
    requires Inside(pool, spine) && 0 <= k < |spine|
  {
    pool[spine[k]].next == if k + 1 < |spine| then spine[k + 1] else NULL
  }

  /** `spine` lists, without repetition, the nodes met from `head` on. */
  ghost predicate Chain(pool: seq<Node>, head: int, spine: seq<int>) {
    && head == (if spine == [] then NULL else spine[0])
    && Inside(pool, spine)
    && (forall k :: 0 <= k < |spine| ==> Link(pool, spine, k))
    && (forall i, j :: 0 <= i < j < |spine| ==> spine[i] != spine[j])
  }

  /** The nodes of the list are exactly the pool entries in use. */
  ghost predicate Accounted(pool: seq<Node>, spine: seq<int>) {
    forall i :: 0 <= i < |pool| ==> (pool[i].cell.location != 0 <==> i in spine)
  }

  function CellsOf(pool: seq<Node>, spine: seq<int>): (r: seq<Cell>)
    requires Inside(pool, spine)
    ensures |r| == |spine|
  {
    seq(|spine|, k requires 0 <= k < |spine| => pool[spine[k]].cell)
  }

  // ----- The plain list -----

  /** The first cell from `i` on at a location, or -1. */
  function FindAt(cells: seq<Cell>, location: int, i: nat): (r: int)
    requires i <= |cells|
    ensures r == -1 || (i <= r < |cells| && cells[r].location == location)
    ensures forall k :: i <= k < (if r == -1 then |cells| else r) ==> cells[k].location != location
    decreases |cells| - i
  {
    if i == |cells| then -1 else if cells[i].location == location then i else FindAt(cells, location, i + 1)
  }

  function Without(cells: seq<Cell>, k: int): seq<Cell>
    requires 0 <= k < |cells|
  {
    cells[..k] + cells[k + 1..]
  }

  /** `to` takes over lengths, countdown and status of `from`. */
  function Synced(from: Cell, to: Cell): Cell {
    to.(onLength := from.onLength, offLength := from.offLength, countdown := from.countdown, status := from.status)
  }

  // ----- Counting -----

  lemma {:induction false} SpineSize(spine: seq<int>, n: nat) returns (s: set<int>)
    requires forall k :: 0 <= k < |spine| ==> 0 <= spine[k] < n
    requires forall i, j :: 0 <= i < j < |spine| ==> spine[i] != spine[j]
    ensures |s| == |spine| && forall i :: i in s <==> i in spine
    decreases |spine|
  {
    if spine == [] {
      s := {};
    } else {
      var last := |spine| - 1;
      s := SpineSize(spine[..last], n);
      assert spine == spine[..last] + [spine[last]];
      s := s + {spine[last]};
    }
  }

  lemma {:induction false} UpToSize(n: nat) returns (s: set<int>)
    ensures |s| == n && forall i :: i in s <==> 0 <= i < n
  {
    if n == 0 {
      s := {};
    } else {
      s := UpToSize(n - 1);
      s := s + {n - 1};
    }
  }

  /** List length and free entries add up to the size of the pool. */
  lemma Conservation(pool: seq<Node>, head: int, spine: seq<int>)
    requires Chain(pool, head, spine) && Accounted(pool, spine)
    ensures |spine| + |set i | 0 <= i < |pool| && pool[i].cell.location == 0| == |pool|
  {
    var used := SpineSize(spine, |pool|);
    var all := UpToSize(|pool|);
    var free := set i | 0 <= i < |pool| && pool[i].cell.location == 0;
    assert all == used + free && used !! free;
  }

  class Fish {
    const pool: array<Node>
    const vmem: array<byte>
    var head: int
    ghost var spine: seq<int>

    ghost predicate Linked()
      reads this, pool
    {
      && pool.Length == POOL && vmem.Length >= 2 * SCREEN_CELLS
      && Chain(pool[..], head, spine) && OnScreen(CellsOf(pool[..], spine))
    }

    ghost predicate Valid()
      reads this, pool
    {
      Linked() && Accounted(pool[..], spine)
    }

    ghost function Cells(): (r: seq<Cell>)
      requires Linked()
      reads this, pool
    {
      CellsOf(pool[..], spine)
    }

    constructor (video: array<byte>)
      requires video.Length >= 2 * SCREEN_CELLS
      ensures Valid() && Cells() == [] && vmem == video && fresh(pool)
    {
      pool := new Node[POOL](_ => Node(NO_CELL, NULL));
      vmem := video;
      head := NULL;
      spine := [];
    }

    /** First fit: the first entry with location zero. */
    method Malloc() returns (at: int)
      requires Linked()
      ensures at == NULL ==> forall i :: 0 <= i < POOL ==> pool[i].cell.location != 0
      ensures at != NULL ==> 0 <= at < POOL && pool[at].cell.location == 0
    {
      var i := 0;
      while i < POOL
        invariant 0 <= i <= POOL && forall k :: 0 <= k < i ==> pool[k].cell.location != 0
      {
        if pool[i].cell.location == 0 { return i; }
        i := i + 1;
      }
      return NULL;
    }

    /** The first node of the list at a location. */
    method FindHelper(location: int) returns (at: int, ghost k: int)
      requires Linked()
      ensures k == FindAt(Cells(), location, 0)
      ensures at == if FindAt(Cells(), location, 0) == -1 then NULL else spine[FindAt(Cells(), location, 0)]
    {
      at, k := head, 0;
      while at != NULL
        invariant 0 <= k <= |spine| && at == (if k == |spine| then NULL else spine[k])
        invariant FindAt(Cells(), location, 0) == FindAt(Cells(), location, k)
        decreases |spine| - k
      {
        if pool[at].cell.location == location { return; }
        assert Link(pool[..], spine, k);
        at, k := pool[at].next, k + 1;
      }
      k := -1;
    }

    /**
     Adds a cell at the front and draws it.  Fails, changing nothing, for a location off the
     screen or when the pool is full.  A cell at location 0 is taken too, but its node still
     looks free: the pool is accounted for afterwards exactly when the location is not 0.
     */
    method Add(arg: Cell) returns (r: int)
      requires Valid()
      modifies this, pool, vmem
      ensures Linked() && (Valid() <==> r == -1 || arg.location != 0)
      ensures r == -1 <==> arg.location >= SCREEN_CELLS || |old(Cells())| == POOL
      ensures r == -1 ==> Cells() == old(Cells()) && vmem[..] == old(vmem[..])
      ensures r != -1 ==> r == 0 && Cells() == [Fresh(arg)] + old(Cells())
                          && vmem[..] == old(vmem[..])[2 * arg.location := arg.onChar]
    {
      if arg.location >= SCREEN_CELLS { return -1; }
      var cell := arg.(status := 1, countdown := arg.onLength);
      var at := Malloc();
      FreeIffRoom(pool[..], head, spine);
      if at == NULL { return -1; }
      Prepended(pool[..], head, spine, at, cell);
      pool[at] := Node(cell, head);
      head := at;
      spine := [at] + spine;
      vmem[2 * cell.location] := cell.onChar;
      return 0;
    }

    /** Unlinks and frees the most recently added cell at a location. */
    method Remove(location: uint16) returns (r: int)
      requires Valid()
      modifies this, pool
      ensures Valid()
      ensures var k := FindAt(old(Cells()), location, 0);
              if k == -1 then r == -1 && Cells() == old(Cells()) else r == 0 && Cells() == Without(old(Cells()), k)
    {
      var at, k := FindHelper(location);
      if at == NULL { return -1; }
      var prev := FindPrev(at, k);
      var next := pool[at].next;
      assert Link(pool[..], spine, k);
      Unlinked(pool[..], head, spine, k, UnlinkedPool(pool[..], spine, k), spine[..k] + spine[k + 1..]);
      ghost var before := pool[..];
      if prev == NULL {
        head := next;
      } else {
        pool[prev] := pool[prev].(next := next);
      }
      pool[at] := Node(NO_CELL, NULL);
      assert pool[..] == UnlinkedPool(before, spine, k);
      spine := spine[..k] + spine[k + 1..];
      return 0;
    }

    /** The node whose link leads to `at`, or NULL for the head of the list. */
    method FindPrev(at: int, ghost k: int) returns (prev: int)
      requires Linked() && 0 <= k < |spine| && spine[k] == at
      ensures prev == if k == 0 then NULL else spine[k - 1]
    {
      prev := NULL;
      var link := head;
      ghost var m := 0;
      while link != at
        invariant 0 <= m <= k && link == spine[m] && prev == (if m == 0 then NULL else spine[m - 1])
        decreases k - m
      {
        assert Link(pool[..], spine, m) && m != k;
        prev := link;
        link := pool[link].next;
        m := m + 1;
      }
    }

    /** Returns the most recently added cell at a location. */
    method Find(location: uint16) returns (r: int, cell: Cell)
      requires Linked()
      ensures var k := FindAt(Cells(), location, 0);
              if k == -1 then r == -1 else r == 0 && cell == Cells()[k]
    {
      var at, k := FindHelper(location);
      if at == NULL { return -1, NO_CELL; }
      return 0, pool[at].cell;
    }

    /** Copies lengths, countdown and status from one cell to another. */
    method Sync(from: uint16, to: uint16) returns (r: int)
      requires Valid()
      modifies pool, vmem
      ensures Valid()
      ensures var i := FindAt(old(Cells()), from, 0); var j := FindAt(old(Cells()), to, 0);
              if i == -1 || j == -1 then r == -1 && Cells() == old(Cells()) && vmem[..] == old(vmem[..])
              else
                && r == 0 && Cells() == old(Cells())[j := Synced(old(Cells())[i], old(Cells())[j])]
                && vmem[..] == old(vmem[..])[2 * to := old(Cells())[j].offChar]
    {
      var source, i := FindHelper(from);
      if source == NULL { return -1; }
      var target, j := FindHelper(to);
      if target == NULL { return -1; }
      var cell := Synced(pool[source].cell, pool[target].cell);
      Replaced(pool[..], head, spine, j, cell);
      pool[target] := pool[target].(cell := cell);
      vmem[2 * cell.location] := cell.offChar;
      return 0;
    }

    /** One tick of one node, drawing its new face if its time is up. */
    method TickNode(at: int, ghost k: int)
      requires Valid() && 0 <= k < |spine| && at == spine[k]
      modifies pool, vmem
      ensures Valid() && Cells() == old(Cells())[k := TickCell(old(Cells())[k])]
      ensures vmem[..] == DrawOne(old(vmem[..]), old(Cells())[k])
    {
      var c := pool[at].cell;
      assert c == Cells()[k];
      Replaced(pool[..], head, spine, k, TickCell(c));
      var countdown := Decrement(c.countdown);
      if 0 < countdown < 0x8000 {
        pool[at] := pool[at].(cell := c.(countdown := countdown));
      } else if c.status % 2 == 1 {
        vmem[2 * c.location] := c.offChar;
        pool[at] := pool[at].(cell := c.(countdown := c.offLength, status := Flip(c.status)));
      } else {
        vmem[2 * c.location] := c.onChar;
        pool[at] := pool[at].(cell := c.(countdown := c.onLength, status := Flip(c.status)));
      }
    }

    /** One tick of every cell, drawing those whose time is up. */
    method Tasklet()
      requires Valid()
      modifies pool, vmem
      ensures Valid() && Cells() == TickAll(old(Cells())) && vmem[..] == Draw(old(vmem[..]), old(Cells()))
    {
      ghost var cells := Cells();
      var at := head;
      ghost var k := 0;
      while at != NULL
        invariant 0 <= k <= |spine| && at == (if k == |spine| then NULL else spine[k])
        invariant Valid() && Cells() == Halfway(cells, k)
        invariant Draw(vmem[..], cells[k..]) == Draw(old(vmem[..]), cells)
        decreases |spine| - k
      {
        HalfwayOn(cells, k);
        DrawNext(vmem[..], cells, k);
        TickNode(at, k);
        assert Link(pool[..], spine, k);
        at := pool[at].next;
        k := k + 1;
      }
    }

    /** `k` timer ticks in a row. */
    method TickMany(k: nat, ghost cells: seq<Cell>, ghost video: seq<byte>)
      requires Valid() && cells == Cells() && video == vmem[..]
      modifies pool, vmem
      ensures Valid() && Cells() == TickAllN(cells, k) && vmem[..] == DrawN(video, cells, k)
      decreases k
    {
      if k > 0 {
        TickMany(k - 1, cells, video);
        Tasklet();
        TickOnce(video, cells, k);
      }
    }

    /** Any sequence of calls. */
    method RunAll(ops: seq<Op>)
      requires Valid() && forall op :: op in ops && op.AddOp? ==> op.cell.location != 0
      modifies this, pool, vmem
      ensures Valid() && Cells() == RunCells(old(Cells()), ops)
      ensures vmem[..] == RunVideo(old(vmem[..]), old(Cells()), ops)
      decreases |ops|
    {
      if ops != [] {
        OneOp(ops[0]);
        RunAll(ops[1..]);
      }
    }

    method OneOp(op: Op)
      requires Valid() && (op.AddOp? ==> op.cell.location != 0)
      modifies this, pool, vmem
      ensures Valid() && Cells() == StepCells(old(Cells()), op)
      ensures vmem[..] == StepVideo(old(vmem[..]), old(Cells()), op)
    {
      match op
      case AddOp(cell) => var _ := Add(cell);
      case RemoveOp(location) => var _ := Remove(location);
      case SyncOp(from, to) => var _ := Sync(from, to);
      case TickOp => Tasklet();
    }
  }

  // ----- Runs over the plain list -----

  datatype Op = AddOp(cell: Cell) | RemoveOp(location: uint16) | SyncOp(from: uint16, to: uint16) | TickOp

  function StepCells(cells: seq<Cell>, op: Op): seq<Cell> {
    match op
    case AddOp(cell) => if cell.location >= SCREEN_CELLS || |cells| == POOL then cells else [Fresh(cell)] + cells
    case RemoveOp(location) => if FindAt(cells, location, 0) == -1 then cells else Without(cells, FindAt(cells, location, 0))
    case SyncOp(from, to) =>
      var i, j := FindAt(cells, from, 0), FindAt(cells, to, 0);
      if i == -1 || j == -1 then cells else cells[j := Synced(cells[i], cells[j])]
    case TickOp => TickAll(cells)
  }

  /** Video memory after the operation; SYNC draws the off-character, whatever the status. */
  function StepVideo(video: seq<byte>, cells: seq<Cell>, op: Op): (v: seq<byte>)
    requires |video| >= 2 * SCREEN_CELLS && OnScreen(cells)
    ensures |v| == |video| && OnScreen(StepCells(cells, op))
  {
    match op
    case AddOp(cell) =>
      if cell.location >= SCREEN_CELLS || |cells| == POOL then video else video[2 * cell.location := cell.onChar]
    case RemoveOp(_) => video
    case SyncOp(from, to) =>
      var i, j := FindAt(cells, from, 0), FindAt(cells, to, 0);
      if i == -1 || j == -1 then video else video[2 * to := cells[j].offChar]
    case TickOp => Draw(video, cells)
  }

  function RunVideo(video: seq<byte>, cells: seq<Cell>, ops: seq<Op>): (v: seq<byte>)
    requires |video| >= 2 * SCREEN_CELLS && OnScreen(cells)
    ensures |v| == |video|
    decreases |ops|
  {
    if ops == [] then video else RunVideo(StepVideo(video, cells, ops[0]), StepCells(cells, ops[0]), ops[1..])
  }

  function RunCells(cells: seq<Cell>, ops: seq<Op>): seq<Cell>
    decreases |ops|
  {
    if ops == [] then cells else RunCells(StepCells(cells, ops[0]), ops[1..])
  }

  /** What was just added is what a find returns and a remove takes away again. */
  lemma RemoveUndoesAdd(cells: seq<Cell>, c: Cell)
    requires |cells| < POOL && c.location < SCREEN_CELLS
    ensures var added := StepCells(cells, AddOp(c));
            FindAt(added, c.location, 0) == 0 && added[0] == Fresh(c) && StepCells(added, RemoveOp(c.location)) == cells
  {
  }

  /** A remove takes the most recently added cell at its location out of the list and keeps the others in their order; without one it changes nothing. */
  lemma RemoveTakesFirst(newer: seq<Cell>, c: Cell, older: seq<Cell>)
    requires forall k :: 0 <= k < |newer| ==> newer[k].location != c.location
    ensures StepCells(newer + [c] + older, RemoveOp(c.location)) == newer + older
    ensures StepCells(newer, RemoveOp(c.location)) == newer
  {
    var cells := newer + [c] + older;
    assert cells[|newer|] == c && forall k :: 0 <= k < |newer| ==> cells[k] == newer[k];
    assert FindAt(cells, c.location, 0) == |newer|;
  }

  /** After SYNC the two cells keep the same beat at every later tick. */
  lemma SyncKeepsBeat(cells: seq<Cell>, from: uint16, to: uint16, k: nat)
    requires var i, j := FindAt(cells, from, 0), FindAt(cells, to, 0); i != -1 && j != -1
    ensures var i, j := FindAt(cells, from, 0), FindAt(cells, to, 0);
            var later := TickAllN(StepCells(cells, SyncOp(from, to)), k);
            InStep(later[i], later[j])
  {
    var i, j := FindAt(cells, from, 0), FindAt(cells, to, 0);
    var synced := StepCells(cells, SyncOp(from, to));
    EachTicks(synced, k, i);
    EachTicks(synced, k, j);
    StayInStep(synced[i], synced[j], k);
  }

  /** The first `k` cells have ticked. */
  function Halfway(cells: seq<Cell>, k: int): (r: seq<Cell>)
    requires 0 <= k <= |cells|
    ensures |r| == |cells|
  {
    seq(|cells|, i requires 0 <= i < |cells| => if i < k then TickCell(cells[i]) else cells[i])
  }

  lemma DrawNext(video: seq<byte>, cells: seq<Cell>, k: int)
    requires |video| >= 2 * SCREEN_CELLS && OnScreen(cells) && 0 <= k < |cells|
    ensures Draw(video, cells[k..]) == Draw(DrawOne(video, cells[k]), cells[k + 1..])
  {
    assert cells[k..][0] == cells[k] && cells[k..][1..] == cells[k + 1..];
  }

  lemma HalfwayOn(cells: seq<Cell>, k: int)
    requires 0 <= k < |cells|
    ensures Halfway(cells, k)[k] == cells[k] && cells[k..][0] == cells[k] && cells[k..][1..] == cells[k + 1..]
    ensures Halfway(cells, k + 1) == Halfway(cells, k)[k := TickCell(cells[k])]
  {
  }

  lemma TickOnce(video: seq<byte>, cells: seq<Cell>, k: nat)
    requires |video| >= 2 * SCREEN_CELLS && OnScreen(cells) && k > 0
    ensures TickAllN(cells, k) == TickAll(TickAllN(cells, k - 1))
    ensures DrawN(video, cells, k) == Draw(DrawN(video, cells, k - 1), TickAllN(cells, k - 1))
  {
  }

  /** Replacing the contents of a node that keeps its place and location. */
  lemma Replaced(pool: seq<Node>, head: int, spine: seq<int>, k: int, cell: Cell)
    requires Chain(pool, head, spine) && Accounted(pool, spine) && 0 <= k < |spine|
    requires cell.location == pool[spine[k]].cell.location
    ensures var after := pool[spine[k] := pool[spine[k]].(cell := cell)];
            Chain(after, head, spine) && Accounted(after, spine) && CellsOf(after, spine) == CellsOf(pool, spine)[k := cell]
  {
    var after := pool[spine[k] := pool[spine[k]].(cell := cell)];
    forall m | 0 <= m < |spine|
      ensures Link(after, spine, m)
    {
      assert Link(pool, spine, m);
    }
    assert CellsOf(after, spine) == CellsOf(pool, spine)[k := cell];
  }

  /** The pool once the `k`-th node is bypassed and cleared. */
  function UnlinkedPool(pool: seq<Node>, spine: seq<int>, k: int): seq<Node>
    requires Inside(pool, spine) && 0 <= k < |spine|
  {
    var bypassed := if k == 0 then pool else pool[spine[k - 1] := pool[spine[k - 1]].(next := pool[spine[k]].next)];
    bypassed[spine[k] := Node(NO_CELL, NULL)]
  }

  lemma Unlinked(pool: seq<Node>, head: int, spine: seq<int>, k: int, after: seq<Node>, shorter: seq<int>)
    requires Chain(pool, head, spine) && Accounted(pool, spine) && 0 <= k < |spine|
    requires after == UnlinkedPool(pool, spine, k) && shorter == spine[..k] + spine[k + 1..]
    ensures Chain(after, if k == 0 then pool[spine[0]].next else head, shorter)
    ensures Accounted(after, shorter) && CellsOf(after, shorter) == Without(CellsOf(pool, spine), k)
  {
    forall m | 0 <= m < |shorter|
      ensures shorter[m] == spine[Skip(m, k)] && after[shorter[m]].cell == pool[shorter[m]].cell && Link(after, shorter, m)
    {
      UnlinkedLink(pool, head, spine, k, after, shorter, m);
    }
    assert Link(pool, spine, 0);
    UnlinkedAccounted(pool, spine, k, after, shorter);
    UnlinkedCells(pool, spine, k, after, shorter);
  }

  lemma UnlinkedCells(pool: seq<Node>, spine: seq<int>, k: int, after: seq<Node>, shorter: seq<int>)
    requires Inside(pool, spine) && Inside(after, shorter) && 0 <= k < |spine| && |shorter| == |spine| - 1 && |after| == |pool|
    requires forall m :: 0 <= m < |shorter| ==> shorter[m] == spine[Skip(m, k)] && after[shorter[m]].cell == pool[shorter[m]].cell
    ensures CellsOf(after, shorter) == Without(CellsOf(pool, spine), k)
  {
  }

  /** The index, in a sequence, of what is at `m` once the `k`-th element is left out. */
  function Skip(m: int, k: int): int { if m < k then m else m + 1 }

  lemma UnlinkedLink(pool: seq<Node>, head: int, spine: seq<int>, k: int, after: seq<Node>, shorter: seq<int>, m: int)
    requires Chain(pool, head, spine) && 0 <= k < |spine| && 0 <= m < |shorter|
    requires after == UnlinkedPool(pool, spine, k) && shorter == spine[..k] + spine[k + 1..]
    ensures Inside(after, shorter) && shorter[m] == spine[Skip(m, k)]
    ensures after[shorter[m]].cell == pool[shorter[m]].cell && Link(after, shorter, m)
  {
    var i := Skip(m, k);
    assert spine[i] != spine[k];
    assert Link(pool, spine, i) && Link(pool, spine, k);
    assert forall j :: 0 <= j < |shorter| ==> shorter[j] == spine[Skip(j, k)];
    if k > 0 && i != k - 1 {
      assert spine[i] != spine[k - 1];
    }
  }

  lemma UnlinkedAccounted(pool: seq<Node>, spine: seq<int>, k: int, after: seq<Node>, shorter: seq<int>)
    requires Inside(pool, spine) && Accounted(pool, spine) && 0 <= k < |spine|
    requires forall i, j :: 0 <= i < j < |spine| ==> spine[i] != spine[j]
    requires after == UnlinkedPool(pool, spine, k) && shorter == spine[..k] + spine[k + 1..]
    ensures Accounted(after, shorter)
  {
    forall i | 0 <= i < |after|
      ensures after[i].cell.location != 0 <==> i in shorter
    {
      assert i in shorter <==> i in spine && i != spine[k] by {
        assert spine == spine[..k] + [spine[k]] + spine[k + 1..];
      }
    }
  }

  lemma FreeIffRoom(pool: seq<Node>, head: int, spine: seq<int>)
    requires |pool| == POOL && Chain(pool, head, spine) && Accounted(pool, spine)
    ensures (forall i :: 0 <= i < POOL ==> pool[i].cell.location != 0) <==> |spine| == POOL
  {
    Conservation(pool, head, spine);
    var free := set i | 0 <= i < |pool| && pool[i].cell.location == 0;
    assert forall i :: 0 <= i < POOL ==> (i in free <==> pool[i].cell.location == 0);
    if |spine| == POOL {
      assert free == {};
    } else {
      assert free != {};
      var i :| i in free;
    }
  }

  /** A free node becomes the new first node. */
  lemma Prepended(pool: seq<Node>, head: int, spine: seq<int>, at: int, cell: Cell)
    requires Chain(pool, head, spine) && Accounted(pool, spine)
    requires 0 <= at < |pool| && pool[at].cell.location == 0
    ensures var after := pool[at := Node(cell, head)];
            && Chain(after, at, [at] + spine) && CellsOf(after, [at] + spine) == [cell] + CellsOf(pool, spine)
            && (Accounted(after, [at] + spine) <==> cell.location != 0)
  {
    assert at !in spine;
    PrependedChain(pool, head, spine, at, cell, [at] + spine);
    var after := pool[at := Node(cell, head)];
    var longer := [at] + spine;
    assert longer[0] == at;
    assert forall i :: i in longer <==> i == at || i in spine;
    if cell.location == 0 {
      assert after[at].cell.location == 0 && at in longer;
    }
  }

  lemma PrependedChain(pool: seq<Node>, head: int, spine: seq<int>, at: int, cell: Cell, longer: seq<int>)
    requires Chain(pool, head, spine) && 0 <= at < |pool| && at !in spine && longer == [at] + spine
    ensures var after := pool[at := Node(cell, head)];
            Chain(after, at, longer) && CellsOf(after, longer) == [cell] + CellsOf(pool, spine)
  {
    var after := pool[at := Node(cell, head)];
    assert forall k :: 0 <= k < |longer| ==> longer[k] == if k == 0 then at else spine[k - 1];
    forall k | 0 <= k < |longer|
      ensures Link(after, longer, k)
    {
      if k > 0 {
        assert Link(pool, spine, k - 1) && longer[k] in spine;
      }
    }
  }
}
