/**
 One blinking character and a list of them as values: 16-bit countdowns, and the closed form
 of what the countdown timers do.
 */
module BlinkClock {
  import opened Bytes

  const SCREEN_CELLS := 2000

  type uint16 = x: int | 0 <= x < 0x1_0000

  datatype Cell = Cell(location: uint16, onChar: byte, offChar: byte,
                       onLength: uint16, offLength: uint16, countdown: uint16, status: uint16)

  const NO_CELL := Cell(0, 0, 0, 0, 0, 0, 0)

  predicate IsOn(c: Cell) { c.status % 2 == 1 }

  /** `decw`: one less, modulo 2^16. */
  function Decrement(v: uint16): uint16 { if v == 0 then 0xFFFF else v - 1 }

  /** The signed comparison after it: zero or below means the time is up. */
  predicate TimeUp(v: uint16) { var w := Decrement(v); w == 0 || w >= 0x8000 }

  /** `xorw $1`. */
  function Flip(s: uint16): uint16 { if s % 2 == 1 then s - 1 else s + 1 }

  function TickCell(c: Cell): Cell {
    if !TimeUp(c.countdown) then c.(countdown := Decrement(c.countdown))
    else c.(countdown := if IsOn(c) then c.offLength else c.onLength, status := Flip(c.status))
  }

  function Face(c: Cell): byte { if IsOn(c) then c.onChar else c.offChar }

  function TickN(c: Cell, k: nat): Cell {
    if k == 0 then c else TickCell(TickN(c, k - 1))
  }

  /** How many ticks a countdown of `v` lasts: out of range counts as one. */
  function Ticks(v: uint16): (n: nat)
    ensures 1 <= n <= 0x8000
  {
    if 1 <= v <= 0x8000 then v else 1
  }

  /** A cell as ADD leaves it: on, with the whole on-time before it. */
  function Fresh(c: Cell): Cell { c.(status := 1, countdown := c.onLength) }

  function Period(c: Cell): (p: nat)
    ensures p >= 2
  {
    Ticks(c.onLength) + Ticks(c.offLength)
  }

  lemma NextPhase(k: nat, p: nat)
    requires p >= 2
    ensures (k + 1) % p == if k % p + 1 == p then 0 else k % p + 1
  {
    var q := k / p;
    assert k == p * q + k % p;
    if k % p + 1 == p {
      assert k + 1 == p * (q + 1);
      ModIs(k + 1, p, q + 1, 0);
    } else {
      ModIs(k + 1, p, q, k % p + 1);
    }
  }

  lemma ModIs(n: nat, p: nat, q: nat, r: nat)
    requires p > 0 && n == p * q + r && r < p
    ensures n % p == r
  {
    QuotientUnique(p, n / p, n % p, q, r);
  }

  lemma QuotientUnique(p: nat, a: nat, r: nat, b: nat, s: nat)
    requires r < p && s < p && p * a + r == p * b + s
    ensures r == s
  {
    if a < b {
      OneMore(p, a, b);
    } else if b < a {
      OneMore(p, b, a);
    }
  }

  lemma OneMore(p: nat, a: nat, b: nat)
    requires a < b
    ensures p * a + p <= p * b
  {
    assert p * b == p * a + p * (b - a);
    assert p * (b - a) == p + p * (b - a - 1);
  }

  /** After `k` ticks the phase is `k` modulo the period, and the countdown holds what is left of it. */
  lemma {:induction false} ClosedForm(c: Cell, k: nat)
    ensures var d := TickN(Fresh(c), k); var phase := k % Period(c); var on := Ticks(c.onLength);
            && d == Fresh(c).(countdown := d.countdown, status := d.status)
            && d.status == (if phase < on then 1 else 0)
            && Ticks(d.countdown) == (if phase < on then on else Period(c)) - phase
  {
    if k > 0 {
      ClosedForm(c, k - 1);
      NextPhase(k - 1, Period(c));
    }
  }

  /** Same lengths, same countdown, same status. */
  predicate InStep(c: Cell, d: Cell) {
    c.onLength == d.onLength && c.offLength == d.offLength && c.countdown == d.countdown && c.status == d.status
  }

  lemma {:induction false} StayInStep(c: Cell, d: Cell, k: nat)
    requires InStep(c, d)
    ensures InStep(TickN(c, k), TickN(d, k))
  {
    if k > 0 {
      StayInStep(c, d, k - 1);
    }
  }

  // ----- A list of cells over video memory -----

  predicate OnScreen(cells: seq<Cell>) {
    forall i :: 0 <= i < |cells| ==> cells[i].location < SCREEN_CELLS
  }

  function TickAll(cells: seq<Cell>): (r: seq<Cell>)
    ensures |r| == |cells|
  {
    seq(|cells|, i requires 0 <= i < |cells| => TickCell(cells[i]))
  }

  /** Video memory after one cell's tick. */
  function DrawOne(video: seq<byte>, c: Cell): (v: seq<byte>)
    requires |video| >= 2 * SCREEN_CELLS && c.location < SCREEN_CELLS
    ensures |v| == |video|
  {
    if TimeUp(c.countdown) then video[2 * c.location := Face(TickCell(c))] else video
  }

  /** Video memory after one tick: each cell whose time is up draws its new face, in list order. */
  function Draw(video: seq<byte>, cells: seq<Cell>): (v: seq<byte>)
    requires |video| >= 2 * SCREEN_CELLS && OnScreen(cells)
    ensures |v| == |video|
    decreases |cells|
  {
    if cells == [] then video else Draw(DrawOne(video, cells[0]), cells[1..])
  }

  /** No other cell of the list sits where cell `j` does. */
  predicate Alone(cells: seq<Cell>, j: int)
    requires 0 <= j < |cells|
  {
    forall i :: 0 <= i < |cells| && i != j ==> cells[i].location != cells[j].location
  }

  predicate Shows(video: seq<byte>, c: Cell) {
    2 * c.location < |video| && video[2 * c.location] == Face(c)
  }

  lemma {:induction false} DrawElsewhere(video: seq<byte>, cells: seq<Cell>, at: int)
    requires |video| >= 2 * SCREEN_CELLS && OnScreen(cells) && 0 <= at < |video|
    requires forall i :: 0 <= i < |cells| ==> 2 * cells[i].location != at
    ensures Draw(video, cells)[at] == video[at]
    decreases |cells|
  {
    if cells != [] {
      DrawElsewhere(DrawOne(video, cells[0]), cells[1..], at);
    }
  }

  /** A tick draws, where a cell sits alone, its new face if its time is up, and nothing otherwise. */
  lemma {:induction false} DrawAlone(video: seq<byte>, cells: seq<Cell>, j: int)
    requires |video| >= 2 * SCREEN_CELLS && OnScreen(cells) && 0 <= j < |cells| && Alone(cells, j)
    ensures var c := cells[j];
            Draw(video, cells)[2 * c.location] ==
            if TimeUp(c.countdown) then Face(TickCell(c)) else video[2 * c.location]
    decreases |cells|
  {
    var drawn := DrawOne(video, cells[0]);
    if j == 0 {
      DrawElsewhere(drawn, cells[1..], 2 * cells[0].location);
    } else {
      DrawAlone(drawn, cells[1..], j - 1);
    }
  }

  lemma DrawShows(video: seq<byte>, cells: seq<Cell>, j: int)
    requires |video| >= 2 * SCREEN_CELLS && OnScreen(cells) && 0 <= j < |cells| && Alone(cells, j)
    requires Shows(video, cells[j])
    ensures Shows(Draw(video, cells), TickCell(cells[j]))
  {
    DrawAlone(video, cells, j);
  }

  function TickAllN(cells: seq<Cell>, k: nat): (r: seq<Cell>)
    ensures |r| == |cells|
  {
    if k == 0 then cells else TickAll(TickAllN(cells, k - 1))
  }

  function DrawN(video: seq<byte>, cells: seq<Cell>, k: nat): (v: seq<byte>)
    requires |video| >= 2 * SCREEN_CELLS && OnScreen(cells)
    ensures |v| == |video| && OnScreen(TickAllN(cells, k))
  {
    if k == 0 then video else Draw(DrawN(video, cells, k - 1), TickAllN(cells, k - 1))
  }

  lemma {:induction false} EachTicks(cells: seq<Cell>, k: nat, j: int)
    requires 0 <= j < |cells|
    ensures TickAllN(cells, k)[j] == TickN(cells[j], k)
    ensures TickAllN(cells, k)[j].location == cells[j].location
  {
    if k > 0 {
      EachTicks(cells, k - 1, j);
    }
  }

  lemma StaysAlone(cells: seq<Cell>, j: int, k: nat)
    requires 0 <= j < |cells| && Alone(cells, j)
    ensures Alone(TickAllN(cells, k), j)
  {
    EachTicks(cells, k, j);
    forall i | 0 <= i < |cells| && i != j
      ensures TickAllN(cells, k)[i].location != TickAllN(cells, k)[j].location
    {
      EachTicks(cells, k, i);
    }
  }

  lemma {:induction false} KeepsShowing(video: seq<byte>, cells: seq<Cell>, j: int, k: nat)
    requires |video| >= 2 * SCREEN_CELLS && OnScreen(cells) && 0 <= j < |cells| && Alone(cells, j)
    requires Shows(video, cells[j])
    ensures Shows(DrawN(video, cells, k), TickN(cells[j], k))
  {
    if k > 0 {
      KeepsShowing(video, cells, j, k - 1);
      StaysAlone(cells, j, k - 1);
      EachTicks(cells, k - 1, j);
      DrawShows(DrawN(video, cells, k - 1), TickAllN(cells, k - 1), j);
    }
  }

  /**
   A freshly added cell with a location of its own shows its on-character exactly while the
   tick count modulo the period is below the on-time, whatever the other cells do.
   */
  lemma BlinkTiming(video: seq<byte>, cells: seq<Cell>, j: int, k: nat)
    requires |video| >= 2 * SCREEN_CELLS && OnScreen(cells) && 0 <= j < |cells| && Alone(cells, j)
    requires cells[j] == Fresh(cells[j]) && Shows(video, cells[j])
    ensures DrawN(video, cells, k)[2 * cells[j].location] ==
            if k % Period(cells[j]) < Ticks(cells[j].onLength) then cells[j].onChar else cells[j].offChar
  {
    KeepsShowing(video, cells, j, k);
    ClosedForm(cells[j], k);
  }
}
