/**
 A text terminal as a value: the characters of its 80x25 grid and its cursor.
 `PutChar` and `Backspace` are what one keystroke or one written character does to a
 terminal that nobody else touches.  The second half of the module relates the grid to
 unbounded paper on which the same text is laid out.
 */
module Terminal {
  import opened Bytes

  datatype Term = Term(grid: seq<byte>, x: int, y: int) {
    predicate Valid() {
      |grid| == 2000 && 0 <= x < 80 && 0 <= y < 25
    }
    function Cursor(): int { 80 * y + x }
  }

  predicate IsNewline(c: byte) {
    c == LINE_FEED || c == CARRIAGE_RETURN
  }

  function Scroll(grid: seq<byte>): (g: seq<byte>)
    requires |grid| == 2000
    ensures |g| == 2000
    ensures forall i :: 0 <= i < 2000 - 80 ==> g[i] == grid[i + 80]
    ensures forall i :: 2000 - 80 <= i < 2000 ==> g[i] == SPACE
  {
    grid[80..] + Spaces(80)
  }

  /** Moves the cursor to the start of the next row, scrolling at the bottom. */
  function NextRow(t: Term): (u: Term)
    requires t.Valid()
    ensures u.Valid() && u.x == 0
  {
    if t.y == 25 - 1 then Term(Scroll(t.grid), 0, t.y) else Term(t.grid, 0, t.y + 1)
  }

  function PutChar(t: Term, c: byte): (u: Term)
    requires t.Valid()
    ensures u.Valid()
  {
    if IsNewline(c) then NextRow(t)
    else
      var written := t.(grid := t.grid[t.Cursor() := c]);
      if t.x == 80 - 1 then NextRow(written) else written.(x := t.x + 1)
  }

  function PutAll(t: Term, text: seq<byte>): (u: Term)
    requires t.Valid()
    ensures u.Valid()
    decreases |text|, t
  {
    if text == [] then t else PutAll(PutChar(t, text[0]), text[1..])
  }

  /** Steps back one cell, possibly to the end of the row above, and blanks that cell. */
  function Backspace(t: Term): (u: Term)
    requires t.Valid()
    ensures u.Valid()
  {
    if t.Cursor() == 0 then t
    else
      var k := t.Cursor() - 1;
      Term(t.grid[k := SPACE], k % 80, k / 80)
  }

  function Erase(t: Term, n: nat): (u: Term)
    requires t.Valid()
    ensures u.Valid()
  {
    if n == 0 then t else Backspace(Erase(t, n - 1))
  }

  const BLANK := Term(Spaces(2000), 0, 0)

  lemma {:induction false} PutAllSnoc(t: Term, text: seq<byte>, c: byte)
    requires t.Valid()
    ensures PutAll(t, text + [c]) == PutChar(PutAll(t, text), c)
    decreases |text|
  {
    if text == [] {
      assert (text + [c])[1..] == [];
    } else {
      assert (text + [c])[1..] == text[1..] + [c];
      PutAllSnoc(PutChar(t, text[0]), text[1..], c);
    }
  }

  // ----- Unbounded paper -----

  /** One logical line cut into rows of 80, the last (possibly empty) row padded with blanks. */
  function LineRows(line: seq<byte>): (p: seq<byte>)
    ensures |p| % 80 == 0 && |p| >= 80
    decreases |line|
  {
    if |line| < 80 then line + Spaces(80 - |line|) else line[..80] + LineRows(line[80..])
  }

  function LineLength(text: seq<byte>): (k: nat)
    ensures k <= |text|
    ensures forall i :: 0 <= i < k ==> !IsNewline(text[i])
    ensures k < |text| ==> IsNewline(text[k])
  {
    if text == [] || IsNewline(text[0]) then 0 else 1 + LineLength(text[1..])
  }

  /** The whole text on paper: the rows of each of its lines, one line below the other. */
  function Paper(text: seq<byte>): (p: seq<byte>)
    ensures |p| % 80 == 0 && |p| >= 80
    decreases |text|
  {
    var k := LineLength(text);
    if k == |text| then LineRows(text) else LineRows(text[..k]) + Paper(text[k + 1..])
  }

  function LastLine(text: seq<byte>): seq<byte>
    decreases |text|
  {
    var k := LineLength(text);
    if k == |text| then text else LastLine(text[k + 1..])
  }

  function Column(text: seq<byte>): (x: nat)
    ensures x < 80
  {
    |LastLine(text)| % 80
  }

  /** The last 25 rows of a paper, or all of it followed by blank rows. */
  function Visible(p: seq<byte>): (g: seq<byte>)
    ensures |g| == 2000
  {
    if |p| <= 2000 then p + Spaces(2000 - |p|) else p[|p| - 2000..]
  }

  function View(p: seq<byte>, x: int): Term
    requires |p| >= 80
  {
    Term(Visible(p), x, (if |p| <= 2000 then |p| / 80 else 25) - 1)
  }

  function Rendered(text: seq<byte>): Term {
    View(Paper(text), Column(text))
  }

  /** `p` with `c` written `x` cells into its last row; filling column 79 starts a fresh row. */
  function WriteLast(p: seq<byte>, x: nat, c: byte): seq<byte>
    requires |p| >= 80 && x < 80
  {
    p[|p| - 80 + x := c] + (if x == 79 then Spaces(80) else [])
  }

  lemma WriteLastAppended(above: seq<byte>, p: seq<byte>, x: nat, c: byte)
    requires |p| >= 80 && x < 80
    ensures WriteLast(above + p, x, c) == above + WriteLast(p, x, c)
  {
  }

  lemma PadSnoc(line: seq<byte>, c: byte)
    requires |line| < 80
    ensures (line + Spaces(80 - |line|))[|line| := c] == line + [c] + Spaces(79 - |line|)
  {
  }

  lemma LineRowsFull(line: seq<byte>)
    requires |line| == 80
    ensures LineRows(line) == line + Spaces(80)
  {
    assert line[80..] == [] && line[..80] == line;
    assert LineRows([]) == [] + Spaces(80);
  }

  lemma ShortLineSnoc(line: seq<byte>, c: byte, longer: seq<byte>)
    requires |line| < 80 && longer == line + [c]
    ensures LineRows(longer) == WriteLast(line + Spaces(80 - |line|), |line|, c)
  {
    PadSnoc(line, c);
    if |line| == 79 {
      LineRowsFull(longer);
      assert longer + Spaces(0) == longer;
    }
  }

  lemma TailSnoc(line: seq<byte>, c: byte, tail: seq<byte>, x: nat)
    requires 80 <= |line| && tail == line[80..] && x < 80
    requires LineRows(tail + [c]) == WriteLast(LineRows(tail), x, c)
    ensures LineRows(line + [c]) == WriteLast(LineRows(line), x, c)
  {
    LongLineSnoc(line, c, line + [c]);
    WriteLastAppended(line[..80], LineRows(tail), x, c);
  }

  lemma {:induction false} LineRowsSnoc(line: seq<byte>, c: byte, x: nat)
    requires x == |line| % 80
    ensures LineRows(line + [c]) == WriteLast(LineRows(line), x, c)
    decreases |line|
  {
    if |line| < 80 {
      ShortLineSnoc(line, c, line + [c]);
    } else {
      var tail := line[80..];
      assert |line| == 80 + |tail|;
      LineRowsSnoc(tail, c, x);
      TailSnoc(line, c, tail, x);
    }
  }

  lemma SliceSnoc(line: seq<byte>, c: byte, k: nat)
    requires k <= |line|
    ensures (line + [c])[..k] == line[..k] && (line + [c])[k..] == line[k..] + [c]
  {
  }

  lemma LongLineSnoc(line: seq<byte>, c: byte, longer: seq<byte>)
    requires 80 <= |line| && longer == line + [c]
    ensures LineRows(longer) == line[..80] + LineRows(line[80..] + [c])
  {
    SliceSnoc(line, c, 80);
  }

  lemma {:induction false} LineLengthSnoc(text: seq<byte>, c: byte)
    ensures LineLength(text + [c]) ==
            if LineLength(text) < |text| || IsNewline(c) then LineLength(text) else |text| + 1
  {
    if text == [] {
      assert (text + [c])[1..] == [];
    } else if !IsNewline(text[0]) {
      assert (text + [c])[1..] == text[1..] + [c];
      LineLengthSnoc(text[1..], c);
    }
  }

  lemma {:induction false} ColumnSnoc(text: seq<byte>, c: byte)
    ensures Column(text + [c]) == if IsNewline(c) then 0 else (Column(text) + 1) % 80
    decreases |text|
  {
    var k := LineLength(text);
    var longer := text + [c];
    LineLengthSnoc(text, c);
    if k < |text| {
      assert longer[k + 1..] == text[k + 1..] + [c];
      ColumnSnoc(text[k + 1..], c);
    } else if IsNewline(c) {
      assert longer[k + 1..] == [];
      assert LastLine([]) == [];
    }
  }

  /** A newline starts a fresh row below everything already on the paper. */
  lemma {:induction false} PaperNewline(text: seq<byte>, c: byte)
    requires IsNewline(c)
    ensures Paper(text + [c]) == Paper(text) + Spaces(80)
    decreases |text|
  {
    var k := LineLength(text);
    var longer := text + [c];
    LineLengthSnoc(text, c);
    assert longer[..k] == text[..k];
    if k == |text| {
      assert longer[k + 1..] == [] && text[..k] == text;
      assert Paper([]) == Spaces(80);
    } else {
      assert longer[k + 1..] == text[k + 1..] + [c];
      PaperNewline(text[k + 1..], c);
    }
  }

  /** Any other character lands at the cursor. */
  lemma {:induction false} PaperChar(text: seq<byte>, c: byte)
    requires !IsNewline(c)
    ensures Paper(text + [c]) == WriteLast(Paper(text), Column(text), c)
    decreases |text|
  {
    var k := LineLength(text);
    var longer := text + [c];
    LineLengthSnoc(text, c);
    if k == |text| {
      LineRowsSnoc(text, c, Column(text));
    } else {
      assert longer[..k] == text[..k];
      assert longer[k + 1..] == text[k + 1..] + [c];
      PaperChar(text[k + 1..], c);
      WriteLastAppended(LineRows(text[..k]), Paper(text[k + 1..]), Column(text), c);
    }
  }

  lemma ViewNewline(p: seq<byte>, x: int)
    requires |p| >= 80 && |p| % 80 == 0 && 0 <= x < 80
    ensures View(p, x).Valid() && View(p + Spaces(80), 0) == NextRow(View(p, x))
  {
    assert View(p + Spaces(80), 0).grid == NextRow(View(p, x)).grid;
  }

  lemma ViewChar(p: seq<byte>, x: nat, c: byte)
    requires |p| >= 80 && |p| % 80 == 0 && x < 80 && !IsNewline(c)
    ensures View(p, x).Valid()
    ensures View(WriteLast(p, x, c), (x + 1) % 80) == PutChar(View(p, x), c)
  {
    var q := p[|p| - 80 + x := c];
    var t := View(p, x);
    assert t.grid[t.Cursor() := c] == Visible(q);
    if x == 79 {
      ViewNewline(q, x);
    } else {
      assert WriteLast(p, x, c) == q;
    }
  }

  /** From a blank screen, any text leaves exactly the last 25 rows of its paper. */
  lemma {:induction false} RenderingCorrect(text: seq<byte>)
    ensures PutAll(BLANK, text) == Rendered(text)
    decreases |text|
  {
    if text == [] {
      assert Visible(Paper([])) == Spaces(2000);
    } else {
      var n := |text| - 1;
      assert text == text[..n] + [text[n]];
      RenderingCorrect(text[..n]);
      PutAllSnoc(BLANK, text[..n], text[n]);
      var before := text[..n];
      ColumnSnoc(before, text[n]);
      if IsNewline(text[n]) {
        PaperNewline(before, text[n]);
        ViewNewline(Paper(before), Column(before));
      } else {
        PaperChar(before, text[n]);
        ViewChar(Paper(before), Column(before), text[n]);
      }
    }
  }

  // ----- Erasing -----

  predicate BlankFromCursor(t: Term)
    requires t.Valid()
  {
    forall i :: t.Cursor() <= i < 2000 ==> t.grid[i] == SPACE
  }

  function ScrolledBy(grid: seq<byte>, n: nat): (g: seq<byte>)
    requires |grid| == 2000
    ensures |g| == 2000
  {
    if n == 0 then grid else Scroll(ScrolledBy(grid, n - 1))
  }

  /** `u` shows the same paper as `t`, with the window moved down by `n` rows. */
  predicate SamePaper(t: Term, u: Term, n: nat)
    requires t.Valid()
  {
    u == Term(ScrolledBy(t.grid, n), t.x, t.y - n)
  }

  lemma {:induction false} ScrolledByAt(grid: seq<byte>, n: nat)
    requires |grid| == 2000
    ensures forall i :: 0 <= i < 2000 ==>
              ScrolledBy(grid, n)[i] == if i + 80 * n < 2000 then grid[i + 80 * n] else SPACE
  {
    if n > 0 {
      ScrolledByAt(grid, n - 1);
    }
  }

  /** Backspace undoes the echo of a character, also across the right margin and a scroll. */
  lemma BackspaceUndoesEcho(t: Term, c: byte)
    requires t.Valid() && !IsNewline(c) && t.grid[t.Cursor()] == SPACE
    ensures SamePaper(t, Backspace(PutChar(t, c)), if t.Cursor() == 2000 - 1 then 1 else 0)
  {
    var u := Backspace(PutChar(t, c));
    if t.Cursor() == 2000 - 1 {
      assert ScrolledBy(t.grid, 1) == Scroll(ScrolledBy(t.grid, 0));
      assert u.grid == Scroll(t.grid);
    } else {
      assert u.grid == t.grid;
    }
  }

  lemma ScrolledBySum(grid: seq<byte>, m: nat, n: nat)
    requires |grid| == 2000
    ensures ScrolledBy(ScrolledBy(grid, m), n) == ScrolledBy(grid, m + n)
  {
    ScrolledByAt(grid, m);
    ScrolledByAt(ScrolledBy(grid, m), n);
    ScrolledByAt(grid, m + n);
  }

  lemma BackspaceScrolled(t: Term, n: nat)
    requires t.Valid() && 80 * n < t.Cursor()
    ensures var u := Backspace(t);
            Backspace(Term(ScrolledBy(t.grid, n), t.x, t.y - n)) == Term(ScrolledBy(u.grid, n), u.x, u.y - n)
  {
    var u := Backspace(t);
    var v := Backspace(Term(ScrolledBy(t.grid, n), t.x, t.y - n));
    ScrolledByAt(t.grid, n);
    ScrolledByAt(u.grid, n);
    assert v.grid == ScrolledBy(u.grid, n);
  }

  /** How often typing `n` characters at `t` scrolls the screen. */
  function Scrolls(t: Term, n: nat): (s: nat) {
    if t.Cursor() + n < 2000 then 0 else (t.Cursor() + n) / 80 - 24
  }

  /** One more character typed before, and one more erased after, an already undone line of `n` characters. */
  lemma EraseOneMore(t: Term, c: byte, v: Term, n: nat)
    requires t.Valid() && BlankFromCursor(t) && t.x + n + 1 < 2000 && !IsNewline(c)
    requires SamePaper(PutChar(t, c), v, Scrolls(PutChar(t, c), n)) && v.Valid()
    ensures SamePaper(t, Backspace(v), Scrolls(t, n + 1))
  {
    var u := PutChar(t, c);
    BackspaceScrolled(u, Scrolls(u, n));
    BackspaceUndoesEcho(t, c);
    ScrolledBySum(t.grid, if t.Cursor() == 1999 then 1 else 0, Scrolls(u, n));
  }

  /**
   Typing a line and erasing all of it restores the paper cell by cell, as long as the
   line's first row has not scrolled off the top.
   */
  lemma {:induction false} EraseUndoesLine(t: Term, line: seq<byte>)
    requires t.Valid() && BlankFromCursor(t) && t.x + |line| < 2000
    requires forall c :: c in line ==> !IsNewline(c)
    ensures SamePaper(t, Erase(PutAll(t, line), |line|), Scrolls(t, |line|))
    decreases |line|
  {
    if line != [] {
      NothingAfterCursor(t, line[0]);
      EraseUndoesLine(PutChar(t, line[0]), line[1..]);
      EraseOneMore(t, line[0], Erase(PutAll(t, line), |line| - 1), |line| - 1);
    }
  }

  /** Typing, printing and erasing never leave anything after the cursor. */
  lemma NothingAfterCursor(t: Term, c: byte)
    requires t.Valid() && BlankFromCursor(t)
    ensures BlankFromCursor(PutChar(t, c)) && BlankFromCursor(Backspace(t)) && BlankFromCursor(BLANK)
  {
    var u := if IsNewline(c) then t else t.(grid := t.grid[t.Cursor() := c]);
    assert forall i :: t.Cursor() < i < 2000 ==> u.grid[i] == SPACE;
  }
}
