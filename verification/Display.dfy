/**
 Video memory and the terminals' cursors, updated in place: one page the hardware shows and a
 backing page for each terminal.  Characters lie at even offsets, attributes at odd ones; a
 page has room for 2048 cells, of which 2000 are on the screen.
 */
module Display {
  import opened Bytes
  import opened Terminal

  const TEXT_COLOR: byte := 7

  /** The character in cell `k` of a page. */
  function Cell(mem: seq<byte>, page: int, k: int): byte
    requires |mem| == 0x4000 && 0 <= page < 4 && 0 <= k < 2000
  {
    mem[0x1000 * page + 2 * k]
  }

  /** The characters of a page. */
  function Chars(mem: seq<byte>, page: int): (g: seq<byte>)
    requires |mem| == 0x4000 && 0 <= page < 4
    ensures |g| == 2000
  {
    seq(2000, k requires 0 <= k < 2000 => Cell(mem, page, k))
  }

  /** The page holding terminal `t` while `active` is displayed. */
  function PageOf(active: int, t: int): int { if t == active then 0 else 1 + t }

  /** Only character cells of `page` differ. */
  ghost predicate OnlyChars(a: seq<byte>, b: seq<byte>, page: int) {
    |a| == |b| == 0x4000 &&
    forall k :: 0 <= k < 0x4000 && !(0x1000 * page <= k < 0x1000 * page + 4000 && k % 2 == 0) ==> b[k] == a[k]
  }

  /** Only bytes of `page` differ. */
  ghost predicate OnlyPage(a: seq<byte>, b: seq<byte>, page: int) {
    |a| == |b| == 0x4000 &&
    forall k :: 0 <= k < 0x4000 && !(0x1000 * page <= k < 0x1000 * page + 0x1000) ==> b[k] == a[k]
  }

  lemma OtherPages(a: seq<byte>, b: seq<byte>, page: int, q: int)
    requires OnlyPage(a, b, page) && 0 <= page < 4 && 0 <= q < 4 && q != page
    ensures Chars(b, q) == Chars(a, q)
  {
  }

  /** What the cell `k` of a page scrolled by one row holds. */
  function ScrolledCell(before: seq<byte>, page: int, k: int): byte
    requires |before| == 0x4000 && 0 <= page < 4 && 0 <= k < 2000
  {
    if k < 1920 then Cell(before, page, k + 80) else SPACE
  }

  /** The first `done` cells of the page are scrolled, the others are as before. */
  ghost predicate Scrolling(before: seq<byte>, now: seq<byte>, page: int, done: int) {
    && OnlyChars(before, now, page) && 0 <= page < 4
    && forall k :: 0 <= k < 2000 ==>
         Cell(now, page, k) == if k < done then ScrolledCell(before, page, k) else Cell(before, page, k)
  }

  lemma ScrollOne(before: seq<byte>, now: seq<byte>, page: int, done: int)
    requires Scrolling(before, now, page, done) && 0 <= done < 2000
    ensures Scrolling(before, now[0x1000 * page + 2 * done := ScrolledCell(before, page, done)], page, done + 1)
  {
    var after := now[0x1000 * page + 2 * done := ScrolledCell(before, page, done)];
    assert forall k :: 0 <= k < 2000 && k != done ==> Cell(after, page, k) == Cell(now, page, k);
  }

  lemma ScrollDone(before: seq<byte>, now: seq<byte>, page: int)
    requires Scrolling(before, now, page, 2000)
    ensures Chars(now, page) == Scroll(Chars(before, page))
  {
    assert forall k :: 0 <= k < 2000 ==> Chars(now, page)[k] == Cell(now, page, k) == ScrolledCell(before, page, k);
    assert forall k :: 0 <= k < 2000 ==> Chars(before, page)[k] == Cell(before, page, k);
  }

  class Console {
    const vram: array<byte>
    var xs: seq<int>
    var ys: seq<int>
    var screenX: int
    var screenY: int

    ghost predicate Valid()
      reads this`xs, this`ys
    {
      vram.Length == 0x4000 && |xs| == |ys| == 3 && forall t :: 0 <= t < 3 ==> 0 <= xs[t] < 80 && 0 <= ys[t] < 25
    }

    /** Terminal `t` as its user would see it. */
    ghost function Screen(active: int, t: int): (u: Term)
      requires Valid() && 0 <= active < 3 && 0 <= t < 3
      reads this`xs, this`ys, vram
      ensures u.Valid()
    {
      Term(Chars(vram[..], PageOf(active, t)), xs[t], ys[t])
    }

    constructor (memory: array<byte>)
      requires memory.Length == 0x4000
      ensures Valid() && vram == memory && xs == [0, 0, 0] && ys == [0, 0, 0]
    {
      vram := memory;
      xs, ys := [0, 0, 0], [0, 0, 0];
      screenX, screenY := 0, 0;
    }

    /** Copies the character of every cell from the cell one row below, and blanks the last row. */
    method ScrollDown(page: int)
      requires vram.Length == 0x4000 && 0 <= page < 4
      modifies vram
      ensures Chars(vram[..], page) == Scroll(old(Chars(vram[..], page)))
      ensures OnlyChars(old(vram[..]), vram[..], page)
    {
      var base := 0x1000 * page;
      ghost var before := vram[..];
      var i := 0;
      while i < 25
        invariant 0 <= i <= 25 && Scrolling(before, vram[..], page, 80 * i)
      {
        var j := 0;
        while j < 80
          invariant 0 <= j <= 80 && Scrolling(before, vram[..], page, 80 * i + j)
        {
          ScrollOne(before, vram[..], page, 80 * i + j);
          assert i < 24 ==> vram[base + 2 * (80 * (i + 1) + j)] == Cell(vram[..], page, 80 * i + j + 80);
          if i == 24 {
            vram[base + 2 * (80 * i + j)] := SPACE;
          } else {
            vram[base + 2 * (80 * i + j)] := vram[base + 2 * (80 * (i + 1) + j)];
          }
          j := j + 1;
        }
        i := i + 1;
      }
      ScrollDone(before, vram[..], page);
    }

    /** The row below `y`; below the last one the page is scrolled instead. */
    method LineBelow(page: int, y: int) returns (below: int)
      requires vram.Length == 0x4000 && 0 <= page < 4 && 0 <= y < 25
      modifies vram
      ensures below == (if y == 24 then 24 else y + 1)
      ensures Chars(vram[..], page) == if y == 24 then Scroll(old(Chars(vram[..], page))) else old(Chars(vram[..], page))
      ensures OnlyPage(old(vram[..]), vram[..], page)
    {
      below := y;
      if y == 24 {
        ScrollDown(page);
      } else {
        below := y + 1;
      }
    }

    /** Writes a character and its attribute. */
    method WriteCell(page: int, x: int, y: int, c: byte)
      requires vram.Length == 0x4000 && 0 <= page < 4 && 0 <= x < 80 && 0 <= y < 25
      modifies vram
      ensures Chars(vram[..], page) == old(Chars(vram[..], page))[80 * y + x := c]
      ensures OnlyPage(old(vram[..]), vram[..], page)
    {
      var at := 0x1000 * page + 2 * (80 * y + x);
      vram[at] := c;
      vram[at + 1] := TEXT_COLOR;
      assert Chars(vram[..], page) == old(Chars(vram[..], page))[80 * y + x := c];
    }

    /** What `my_putc` and `key_putc` do alike: a character, or a new row, at a position of a page. */
    method PlaceChar(page: int, x0: int, y0: int, c: byte) returns (x: int, y: int)
      requires vram.Length == 0x4000 && 0 <= page < 4 && 0 <= x0 < 80 && 0 <= y0 < 25
      modifies vram
      ensures Term(Chars(vram[..], page), x, y) == PutChar(Term(old(Chars(vram[..], page)), x0, y0), c)
      ensures OnlyPage(old(vram[..]), vram[..], page)
    {
      x, y := x0, y0;
      if IsNewline(c) {
        y := LineBelow(page, y);
        x := 0;
      } else {
        WriteCell(page, x, y, c);
        x := (x + 1) % 80;
        y := (y + x / 80) % 25;
        assert y == y0 && x == if x0 == 79 then 0 else x0 + 1;
        if x == 0 {
          y := LineBelow(page, y);
        }
      }
    }

    /** A character written by a process of terminal `t`: into the screen if `t` is displayed, else its backing page. */
    method MyPutc(active: int, t: int, c: byte)
      requires Valid() && 0 <= active < 3 && 0 <= t < 3
      modifies this, vram
      ensures Valid() && Screen(active, t) == PutChar(old(Screen(active, t)), c)
      ensures forall u :: 0 <= u < 3 && u != t ==> Screen(active, u) == old(Screen(active, u))
    {
      var page := PageOf(active, t);
      ghost var before := vram[..];
      var x, y := PlaceChar(page, xs[t], ys[t], c);
      xs, ys := xs[t := x], ys[t := y];
      OthersKept(before, vram[..], page, active, t);
    }

    method MyPuts(active: int, t: int, text: seq<byte>)
      requires Valid() && 0 <= active < 3 && 0 <= t < 3
      modifies this, vram
      ensures Valid() && Screen(active, t) == PutAll(old(Screen(active, t)), text)
      ensures forall u :: 0 <= u < 3 && u != t ==> Screen(active, u) == old(Screen(active, u))
    {
      ghost var start := Screen(active, t);
      var index := 0;
      while index < |text|
        invariant 0 <= index <= |text| && Valid()
        invariant PutAll(start, text) == PutAll(Screen(active, t), text[index..])
        invariant forall u :: 0 <= u < 3 && u != t ==> Screen(active, u) == old(Screen(active, u))
      {
        assert text[index..][1..] == text[index + 1..];
        MyPutc(active, t, text[index]);
        index := index + 1;
      }
    }

    /** The echo of a key, always on the displayed terminal. */
    method KeyPutc(active: int, c: byte)
      requires Valid() && 0 <= active < 3
      modifies this, vram
      ensures Valid() && Screen(active, active) == PutChar(old(Screen(active, active)), c)
      ensures forall u :: 0 <= u < 3 && u != active ==> Screen(active, u) == old(Screen(active, u))
      ensures screenX == xs[active] && screenY == ys[active]
    {
      ghost var before := vram[..];
      screenX, screenY := PlaceChar(0, xs[active], ys[active], c);
      xs, ys := xs[active := screenX], ys[active := screenY];
      OthersKept(before, vram[..], 0, active, active);
    }

    method SetTerminalPos(t: int, x: int, y: int)
      requires Valid() && 0 <= t < 3 && 0 <= x < 80 && 0 <= y < 25
      modifies this`xs, this`ys
      ensures Valid() && xs == old(xs)[t := x] && ys == old(ys)[t := y]
      ensures forall active, u :: 0 <= active < 3 && 0 <= u < 3 ==>
                Screen(active, u) == if u == t then old(Screen(active, u)).(x := x, y := y) else old(Screen(active, u))
    {
      xs, ys := xs[t := x], ys[t := y];
    }

    /** Echoes a blank at a position other than the last, which cannot scroll. */
    method EchoBlank(active: int, x: int, y: int)
      requires Valid() && 0 <= active < 3 && 0 <= x < 80 && 0 <= y < 25 && 80 * y + x < 1999
      modifies this, vram
      ensures Valid() && screenX == (if x == 79 then 0 else x + 1) && screenY == (if x == 79 then y + 1 else y)
      ensures Screen(active, active) ==
              Term(old(Screen(active, active)).grid[80 * y + x := SPACE], screenX, screenY)
      ensures forall u :: 0 <= u < 3 && u != active ==> Screen(active, u) == old(Screen(active, u))
    {
      screenX, screenY := x, y;
      SetTerminalPos(active, screenX, screenY);
      KeyPutc(active, SPACE);
    }

    /** Steps back, overwrites with a blank through `KeyPutc`, and steps back again. */
    method Backspace(active: int)
      requires Valid() && 0 <= active < 3
      modifies this, vram
      ensures Valid() && Screen(active, active) == Terminal.Backspace(old(Screen(active, active)))
      ensures forall u :: 0 <= u < 3 && u != active ==> Screen(active, u) == old(Screen(active, u))
    {
      screenX, screenY := xs[active], ys[active];
      if screenX == 0 && screenY == 0 { return; }
      if screenX == 0 {
        EchoBlank(active, 79, screenY - 1);
        screenX := 79;
        screenY := screenY - 1;
      } else {
        EchoBlank(active, screenX - 1, screenY);
        screenX := screenX - 1;
      }
      SetTerminalPos(active, screenX, screenY);
    }

    /** Saves the screen in the backing page of `active` and shows the backing page of `t` instead. */
    method ExchangePages(active: int, t: int)
      requires Valid() && 0 <= active < 3 && 0 <= t < 3 && active != t
      modifies vram
      ensures forall u :: 0 <= u < 3 ==> Screen(t, u) == old(Screen(active, u))
    {
      ghost var a := vram[..];
      CopyPage(1 + active, 0);
      ghost var b := vram[..];
      CopyPage(0, 1 + t);
      OthersKept(a, b, 1 + active, active, active);
      forall u | 0 <= u < 3
        ensures Screen(t, u) == old(Screen(active, u))
      {
        if u != t { OtherPages(b, vram[..], 0, 1 + u); }
        if u != active { OtherPages(a, b, 1 + active, 1 + u); }
      }
    }

    /** `memcpy` of one whole page. */
    method CopyPage(dst: int, src: int)
      requires vram.Length == 0x4000 && 0 <= dst < 4 && 0 <= src < 4 && dst != src
      modifies vram
      ensures Chars(vram[..], dst) == old(Chars(vram[..], src))
      ensures OnlyPage(old(vram[..]), vram[..], dst)
    {
      ghost var before := vram[..];
      var n := 0;
      while n < 0x1000
        invariant 0 <= n <= 0x1000 && Copying(before, vram[..], dst, src, n)
      {
        CopyOne(before, vram[..], dst, src, n);
        vram[0x1000 * dst + n] := vram[0x1000 * src + n];
        n := n + 1;
      }
      CopyDone(before, vram[..], dst, src);
    }
  }

  /** The first `n` bytes of one page are those of another, all else is as before. */
  ghost predicate Copying(before: seq<byte>, now: seq<byte>, dst: int, src: int, n: int) {
    && |before| == |now| == 0x4000 && 0 <= dst < 4 && 0 <= src < 4 && dst != src && 0 <= n <= 0x1000
    && forall k :: 0 <= k < 0x4000 ==>
         now[k] == before[if 0x1000 * dst <= k < 0x1000 * dst + n then k - 0x1000 * dst + 0x1000 * src else k]
  }

  lemma CopyOne(before: seq<byte>, now: seq<byte>, dst: int, src: int, n: int)
    requires Copying(before, now, dst, src, n) && n < 0x1000
    ensures Copying(before, now[0x1000 * dst + n := now[0x1000 * src + n]], dst, src, n + 1)
  {
  }

  lemma CopyDone(before: seq<byte>, now: seq<byte>, dst: int, src: int)
    requires Copying(before, now, dst, src, 0x1000)
    ensures OnlyPage(before, now, dst) && Chars(now, dst) == Chars(before, src)
  {
    assert forall k :: 0 <= k < 2000 ==> Cell(now, dst, k) == now[0x1000 * dst + 2 * k] == Cell(before, src, k);
  }

  /** A change to the page of `t` shows on no other terminal. */
  lemma OthersKept(a: seq<byte>, b: seq<byte>, page: int, active: int, t: int)
    requires 0 <= active < 3 && 0 <= t < 3 && (page == PageOf(active, t) || page == 1 + active) && OnlyPage(a, b, page)
    ensures forall u :: 0 <= u < 3 && u != t ==> Chars(b, PageOf(active, u)) == Chars(a, PageOf(active, u))
  {
    forall u | 0 <= u < 3 && u != t
      ensures Chars(b, PageOf(active, u)) == Chars(a, PageOf(active, u))
    {
      OtherPages(a, b, page, PageOf(active, u));
    }
  }
}
