/** The keyboard handler and `terminal_read`, updating the line buffers and mailboxes in place. */
module Keyboard {
  import opened Bytes
  import opened FileImage
  import opened Names
  import opened Paging
  import opened LineDiscipline
  import opened Terminal
  import opened System
  import opened Kernel
  import opened Session

  /** Everything before the first line feed. */
  function UpTo(s: seq<byte>): (r: seq<byte>)
    ensures |r| <= |s| && r == s[..|r|] && forall i :: 0 <= i < |r| ==> r[i] != LINE_FEED
    ensures |r| < |s| ==> s[|r|] == LINE_FEED
  {
    if s == [] || s[0] == LINE_FEED then [] else [s[0]] + UpTo(s[1..])
  }

  lemma {:induction false} UpToIs(s: seq<byte>, n: nat)
    requires n < |s| && s[n] == LINE_FEED && forall i :: 0 <= i < n ==> s[i] != LINE_FEED
    ensures UpTo(s) == s[..n]
  {
    if n > 0 {
      UpToIs(s[1..], n - 1);
    }
  }

  /** A mailbox is empty when its first byte is NUL. */
  function MailIn(m: seq<byte>): Option<seq<byte>>
    requires m != []
  {
    if m[0] == NUL then None else Some(UpTo(m))
  }

  predicate MailFormed(m: seq<byte>) {
    |m| == 128 && (m[0] != NUL ==> |UpTo(m)| < 128)
  }

  /** Copies up to and including the first line feed. */
  method MyStrcpy(dest: array<byte>, src: array<byte>)
    requires dest != src && |UpTo(src[..])| < src.Length && |UpTo(src[..])| < dest.Length
    modifies dest
    ensures var n := |UpTo(src[..])|; dest[..n + 1] == src[..n + 1] && dest[n + 1..] == old(dest[n + 1..])
  {
    ghost var n := |UpTo(src[..])|;
    var i := 0;
    while src[i] != LINE_FEED
      invariant 0 <= i <= n
      invariant dest[..i] == src[..i] && forall k :: i <= k < dest.Length ==> dest[k] == old(dest[k])
      invariant forall k :: 0 <= k < i ==> src[k] != LINE_FEED
      decreases n - i
    {
      assert i != n;
      dest[i] := src[i];
      i := i + 1;
    }
    UpToIs(src[..], i);
    dest[i] := LINE_FEED;
  }

  /** The number of characters up to and including the first line feed. */
  method MyStrlen(s: array<byte>) returns (len: int)
    requires |UpTo(s[..])| < s.Length
    ensures len == |UpTo(s[..])| + 1
  {
    ghost var n := |UpTo(s[..])|;
    len := 0;
    while s[len] != LINE_FEED
      invariant 0 <= len <= n && forall k :: 0 <= k < len ==> s[k] != LINE_FEED
      decreases n - len
    {
      assert len != n;
      len := len + 1;
    }
    UpToIs(s[..], len);
    len := len + 1;
  }

  /** Ends the first `idx` characters with a line feed, copies them to a mailbox and clears the line. */
  method HandIn(line: array<byte>, box: array<byte>, idx: int)
    requires line != box && line.Length == box.Length == 128 && 0 <= idx <= 127 && PlainLine(line[..idx])
    modifies line, box
    ensures MailFormed(box[..]) && MailIn(box[..]) == Some(old(line[..idx]))
  {
    ghost var text := line[..idx];
    line[idx] := LINE_FEED;
    assert line[..idx] == text;
    UpToIs(line[..], idx);
    MyStrcpy(box, line);
    assert box[..idx + 1][idx] == LINE_FEED && box[..idx + 1][..idx] == text;
    UpToIs(box[..], idx);
    line[0] := NUL;
  }

  /** Three separate empty buffers. */
  method NewBuffers() returns (s: seq<array<byte>>)
    ensures |s| == 3 && s[0] != s[1] && s[0] != s[2] && s[1] != s[2]
    ensures forall t :: 0 <= t < 3 ==> fresh(s[t]) && s[t].Length == 128 && s[t][0] == NUL
  {
    var a := new byte[128](_ => NUL);
    var b := new byte[128](_ => NUL);
    var c := new byte[128](_ => NUL);
    s := [a, b, c];
  }

  /** The line buffers and mailboxes of the three terminals. */
  class Lines {
    const img: seq<byte>
    const saveBuf: seq<array<byte>>
    const mailbox: seq<array<byte>>
    var saveIdx: seq<int>
    /** Of each terminal: the lines handed in, and those delivered. */
    ghost var log: seq<seq<Sent>>
    ghost var got: seq<seq<seq<byte>>>

    /** Six separate buffers of 128 bytes. */
    ghost predicate Shaped()
      reads this
    {
      && |saveBuf| == |mailbox| == |saveIdx| == |log| == |got| == 3 && PlainNames(img)
      && (forall t :: 0 <= t < 3 ==> saveBuf[t].Length == mailbox[t].Length == 128 && 0 <= saveIdx[t] <= 127)
      && (forall t, u :: 0 <= t < 3 && 0 <= u < 3 ==> saveBuf[t] != mailbox[u])
      && (forall t, u :: 0 <= t < u < 3 ==> saveBuf[t] != saveBuf[u] && mailbox[t] != mailbox[u])
    }

    ghost function Line(t: int): seq<byte>
      requires Shaped() && 0 <= t < 3
      reads this, saveBuf[t]
    {
      saveBuf[t][..saveIdx[t]]
    }

    ghost function Mail(t: int): Option<seq<byte>>
      requires Shaped() && 0 <= t < 3
      reads this, mailbox[t]
    {
      MailIn(mailbox[t][..])
    }

    ghost predicate Valid()
      reads this, saveBuf, mailbox
    {
      Shaped() && forall t :: 0 <= t < 3 ==> PlainLine(Line(t)) && MailFormed(mailbox[t][..])
    }

    /** A terminal's line, its mailbox, and what came of its lines. */
    ghost function DeskOf(t: int): Desk
      requires Shaped() && 0 <= t < 3
      reads this, saveBuf[t], mailbox[t]
    {
      Desk(Line(t), Mail(t), log[t], got[t])
    }

    ghost function AllDesks(): (d: seq<Desk>)
      requires Shaped()
      reads this, saveBuf, mailbox
      ensures |d| == 3 && forall t :: 0 <= t < 3 ==> d[t] == DeskOf(t) && |d[t].line| <= 127
    {
      [DeskOf(0), DeskOf(1), DeskOf(2)]
    }

    /** Empty lines and, as `terminal_open` leaves them, empty mailboxes. */
    constructor (image: seq<byte>)
      requires PlainNames(image)
      ensures Valid() && img == image && AllDesks() == [FRESH_DESK, FRESH_DESK, FRESH_DESK]
      ensures forall t :: 0 <= t < 3 ==> fresh(saveBuf[t]) && fresh(mailbox[t])
    {
      img, saveIdx := image, [0, 0, 0];
      log, got := [[], [], []], [[], [], []];
      var lines := NewBuffers();
      var boxes := NewBuffers();
      saveBuf, mailbox := lines, boxes;
    }

    /** Puts a character at the end of the line being edited. */
    method Store(t: int, c: byte)
      requires Valid() && 0 <= t < 3 && saveIdx[t] < 127 && c != NUL && c != LINE_FEED
      modifies this`saveIdx, saveBuf[t]
      ensures Valid() && DeskOf(t) == old(DeskOf(t)).(line := old(Line(t)) + [c])
      ensures forall u :: 0 <= u < 3 && u != t ==> DeskOf(u) == old(DeskOf(u))
    {
      saveBuf[t][saveIdx[t]] := c;
      saveIdx := saveIdx[t := saveIdx[t] + 1];
    }

    /** Ends the line with a line feed, copies it to the mailbox and starts afresh. */
    method Deliver(t: int)
      requires Valid() && 0 <= t < 3
      modifies this`saveIdx, this`log, saveBuf[t], mailbox[t]
      ensures Valid() && DeskOf(t) == AtDesk(img, old(DeskOf(t)), Press(Enter))
      ensures forall u :: 0 <= u < 3 && u != t ==> DeskOf(u) == old(DeskOf(u))
    {
      ghost var line := Line(t);
      HandIn(saveBuf[t], mailbox[t], saveIdx[t]);
      saveIdx := saveIdx[t := 0];
      log := log[t := log[t] + [Sent(line, false)]];
    }

    /** A backspace shortens the line. */
    method Shorten(t: int)
      requires Valid() && 0 <= t < 3 && 0 < saveIdx[t]
      modifies this`saveIdx
      ensures Valid() && DeskOf(t) == old(DeskOf(t)).(line := old(Line(t))[..old(saveIdx[t]) - 1])
      ensures forall u :: 0 <= u < 3 && u != t ==> DeskOf(u) == old(DeskOf(u))
    {
      saveIdx := saveIdx[t := saveIdx[t] - 1];
    }

    /** A tab completes the line in place. */
    method CompleteWord(t: int, after: seq<byte>)
      requires Valid() && 0 <= t < 3 && 32 <= |after|
      modifies this`saveIdx, saveBuf[t]
      ensures Valid() && DeskOf(t) == old(DeskOf(t)).(line := Complete(img, old(Line(t))))
      ensures forall u :: 0 <= u < 3 && u != t ==> DeskOf(u) == old(DeskOf(u))
    {
      CompletePlain(img, Line(t));
      var idx := FsSearch(img, saveBuf[t], saveIdx[t], after);
      saveIdx := saveIdx[t := idx];
    }

    /** A character for a full line ends up behind it, where Enter will overwrite it. */
    method Overflow(t: int)
      requires Valid() && 0 <= t < 3 && saveIdx[t] == 127
      modifies saveBuf[t]
      ensures Valid() && forall u :: 0 <= u < 3 ==> DeskOf(u) == old(DeskOf(u))
    {
      saveBuf[t][127] := LINE_FEED;
      assert saveBuf[t][..127] == old(saveBuf[t][..127]);
    }

    /** One decoded key typed at terminal `t`. */
    method PressKey(t: int, k: Key, after: seq<byte>)
      requires Valid() && 0 <= t < 3 && Decoded(k) && 32 <= |after|
      modifies this`saveIdx, this`log, saveBuf[t], mailbox[t]
      ensures Valid() && AllDesks() == old(AllDesks())[t := AtDesk(img, old(DeskOf(t)), Press(k))]
    {
      ghost var before := AllDesks();
      match k {
        case Char(c) =>
          if saveIdx[t] == 127 {
            Overflow(t);
          } else {
            Store(t, c);
          }
        case Enter => Deliver(t);
        case Rubout =>
          if saveIdx[t] > 0 {
            Shorten(t);
          }
        case Tab => CompleteWord(t, after);
        case Silent =>
      }
      OneDesk(before, AllDesks(), t, AtDesk(img, before[t], Press(k)));
    }

    /** Copies the waiting line out and empties the mailbox. */
    method Fetch(t: int, buf: array<byte>) returns (r: int)
      requires Valid() && 0 <= t < 3 && Mail(t).Some? && buf.Length >= 128
      requires forall u :: 0 <= u < 3 ==> buf != saveBuf[u] && buf != mailbox[u]
      modifies mailbox[t], buf
      ensures Valid() && DeskOf(t) == old(DeskOf(t)).(mail := None)
      ensures forall u :: 0 <= u < 3 && u != t ==> DeskOf(u) == old(DeskOf(u))
      ensures Handed(old(Mail(t)), true, r, old(buf[..]), buf[..])
    {
      ghost var line := Mail(t).value;
      MyStrcpy(buf, mailbox[t]);
      assert buf[..|line| + 1] == line + [LINE_FEED];
      assert buf[|line|] == buf[..|line| + 1][|line|];
      assert forall i :: 0 <= i < |line| ==> buf[i] == buf[..|line| + 1][i] == line[i];
      UpToIs(buf[..], |line|);
      mailbox[t][0] := NUL;
      r := MyStrlen(buf);
    }

    /** Takes the line waiting at terminal `t`, if there is one. */
    method TakeLine(t: int, buf: array<byte>) returns (done: bool, r: int)
      requires Valid() && 0 <= t < 3 && buf.Length >= 128
      requires forall u :: 0 <= u < 3 ==> buf != saveBuf[u] && buf != mailbox[u]
      modifies this`log, this`got, mailbox[t], buf
      ensures Valid() && AllDesks() == old(AllDesks())[t := AtDesk(img, old(DeskOf(t)), Take)]
      ensures Handed(old(Mail(t)), done, r, old(buf[..]), buf[..])
    {
      ghost var before := AllDesks();
      done, r := mailbox[t][0] != NUL, 0;
      if done {
        r := Fetch(t, buf);
        log := log[t := AtDesk(img, before[t], Take).log];
        got := got[t := got[t] + [before[t].mail.value]];
      }
      OneDesk(before, AllDesks(), t, AtDesk(img, before[t], Take));
    }
  }

  class Driver {
    const machine: Machine
    const lines: Lines

    constructor (m: Machine, image: seq<byte>)
      requires PlainNames(image) && m.Linked()
      ensures Ready() && machine == m && lines.img == image && fresh(lines)
      ensures AllDesks() == Desks([FRESH_DESK, FRESH_DESK, FRESH_DESK], m.table.activeTerminal)
    {
      var l := new Lines(image);
      machine, lines := m, l;
    }

    ghost function MachineMemory(): set<object> {
      var m := machine;
      {m, m.table, m.table.processNum, m.table.currTask, m.table.parentPid,
       m.console, m.console.vram, m.mmu, m.mmu.pageDir, m.mmu.pageTable}
    }

    /** The line buffers are none of the machine's memory. */
    ghost predicate Apart()
      requires lines.Shaped()
      reads lines
    {
      forall t :: 0 <= t < 3 ==> lines.saveBuf[t] as object !in MachineMemory() && lines.mailbox[t] as object !in MachineMemory()
    }

    ghost predicate Ready()
      reads lines, lines.saveBuf, lines.mailbox
      reads MachineMemory()
    {
      lines.Valid() && Apart() && machine.Linked()
    }

    ghost function AllDesks(): (d: Desks)
      requires Ready()
      reads lines, lines.saveBuf, lines.mailbox
      reads MachineMemory()
      ensures d.Valid()
    {
      Desks(lines.AllDesks(), machine.table.activeTerminal)
    }

    /** The terminal of the running process. */
    ghost function Turn(): int
      requires Ready()
      reads lines, lines.saveBuf, lines.mailbox
      reads MachineMemory()
    {
      machine.Abs().Turn()
    }

    /** What happens to the machine's memory happens to none of the lines. */
    twostate lemma LinesUntouched()
      requires old(Ready()) && machine.Linked() && unchanged(lines)
      requires forall t :: 0 <= t < 3 ==> unchanged(lines.saveBuf[t]) && unchanged(lines.mailbox[t])
      ensures Ready() && AllDesks().desk == old(AllDesks().desk)
    {
    }

    /** What happens to the lines happens to nothing of the machine's. */
    twostate lemma MachineUntouched()
      requires old(Ready()) && lines.Valid()
      requires unchanged(machine, machine.table, machine.table.processNum, machine.table.currTask, machine.table.parentPid)
      requires unchanged(machine.console, machine.console.vram, machine.mmu, machine.mmu.pageDir, machine.mmu.pageTable)
      ensures Ready() && machine.Abs() == old(machine.Abs())
    {
    }

    method EditLine(t: int, k: Key, after: seq<byte>)
      requires Ready() && t == machine.table.activeTerminal && Decoded(k) && 32 <= |after|
      modifies lines`saveIdx, lines`log, lines.saveBuf[t], lines.mailbox[t]
      ensures Ready() && AllDesks() == AtDesks(lines.img, old(AllDesks()), Typed(k)) && machine.Abs() == old(machine.Abs())
    {
      lines.PressKey(t, k, after);
      MachineUntouched();
    }

    method Echo(c: byte)
      requires Ready()
      modifies machine.console, machine.console.vram
      ensures Ready() && AllDesks() == old(AllDesks()) && machine.Abs() == Typing(old(machine.Abs()), c)
    {
      machine.EchoKey(c);
      LinesUntouched();
    }

    method Unecho()
      requires Ready()
      modifies machine.console, machine.console.vram
      ensures Ready() && AllDesks() == old(AllDesks()) && machine.Abs() == Rubbing(old(machine.Abs()))
    {
      machine.EraseKey();
      LinesUntouched();
    }

    /** What a key shows, `idx` characters having been typed before it. */
    method EchoFor(k: Key, idx: int, ghost line: seq<byte>)
      requires Ready() && idx == |line|
      modifies machine.console, machine.console.vram
      ensures Ready() && AllDesks() == old(AllDesks()) && machine.Abs() == EchoOf(old(machine.Abs()), line, k)
    {
      match k
      case Char(c) => if idx != 127 { Echo(c); }
      case Enter => Echo(LINE_FEED);
      case Rubout => if idx > 0 { Unecho(); }
      case _ =>
    }

    /** One decoded key: edits the displayed terminal's line and echoes. */
    method KeyboardHandler(k: Key, after: seq<byte>)
      requires Ready() && Decoded(k) && 32 <= |after|
      modifies lines`saveIdx, lines`log, lines.saveBuf, lines.mailbox, machine.console, machine.console.vram
      ensures Ready() && AllDesks() == AtDesks(lines.img, old(AllDesks()), Typed(k))
      ensures machine.Abs() == EchoOf(old(machine.Abs()), old(AllDesks()).desk[machine.table.activeTerminal].line, k)
    {
      var t := machine.table.activeTerminal;
      var idx := lines.saveIdx[t];
      ghost var line := lines.Line(t);
      EditLine(t, k, after);
      EchoFor(k, idx, line);
    }

    method TakeLine(t: int, buf: array<byte>) returns (done: bool, r: int)
      requires Ready() && t == machine.table.activeTerminal && buf.Length >= 128 && buf as object !in MachineMemory()
      requires forall u :: 0 <= u < 3 ==> buf != lines.saveBuf[u] && buf != lines.mailbox[u]
      modifies lines`log, lines`got, lines.mailbox[t], buf
      ensures Ready() && machine.Abs() == old(machine.Abs())
      ensures AllDesks() == AtDesks(lines.img, old(AllDesks()), Asked(t))
      ensures Handed(old(AllDesks()).desk[t].mail, done, r, old(buf[..]), buf[..])
    {
      done, r := lines.TakeLine(t, buf);
      MachineUntouched();
    }

    /**
     One look by `terminal_read`: succeeds if the running process belongs to the displayed
     terminal and a line waits there; the line goes to `buf` with its line feed.
     */
    method TerminalRead(fd: int, buf: array<byte>) returns (done: bool, r: int)
      requires Ready() && buf.Length >= 128 && buf as object !in MachineMemory()
      requires forall t :: 0 <= t < 3 ==> buf != lines.saveBuf[t] && buf != lines.mailbox[t]
      modifies lines`log, lines`got, lines.mailbox, buf
      ensures Ready() && machine.Abs() == old(machine.Abs())
      ensures AllDesks() == if fd == 0 then AtDesks(lines.img, old(AllDesks()), Asked(Turn())) else old(AllDesks())
      ensures Looked(old(AllDesks()), Turn(), fd, done, r, old(buf[..]), buf[..])
    {
      if fd != 0 { return true, -1; }
      var t := machine.table.activeTerminal;
      if machine.table.processNum[machine.table.mainProcess] != t { return false, 0; }
      done, r := TakeLine(t, buf);
    }

    // ----- Whole runs -----

    /** The whole system: the kernel and the terminals' lines. */
    ghost function Now(): (w: Whole)
      requires Ready()
      reads lines, lines.saveBuf, lines.mailbox
      reads MachineMemory()
    {
      Whole(machine.Abs(), AllDesks())
    }

    method KeyEvent(k: Key, after: seq<byte>, ghost w: Whole)
      requires Ready() && 32 <= |after| && w == Now() && w.Good() && CanOccur(w, Pressed(k))
      modifies lines`saveIdx, lines`log, lines.saveBuf, lines.mailbox, machine.console, machine.console.vram
      ensures Ready() && Now() == WholeStep(lines.img, w, Pressed(k))
    {
      KeyboardHandler(k, after);
    }

    method ReadOnce(buf: array<byte>, ghost s: State, ghost d: Desks) returns (done: bool, r: int)
      requires Ready() && s == machine.Abs() && d == AllDesks() && buf.Length == 128 && buf as object !in MachineMemory()
      requires forall t :: 0 <= t < 3 ==> buf != lines.saveBuf[t] && buf != lines.mailbox[t]
      modifies lines`log, lines`got, lines.mailbox, buf
      ensures Ready() && machine.Abs() == s
      ensures AllDesks() == AtDesks(lines.img, d, Asked(s.Turn()))
      ensures Looked(d, s.Turn(), 0, done, r, old(buf[..]), buf[..])
    {
      done, r := TerminalRead(0, buf);
    }

    method HandOut(va: int, line: Option<seq<byte>>, ghost s: State, ghost d: Desks)
      requires Ready() && 0 <= va < 0x1_0000_0000 && s == machine.Abs() && s.Formed() && d == AllDesks()
      modifies machine`mem, machine.console.vram
      ensures Ready() && machine.Abs() == Session.Delivered(s, va, line) && AllDesks() == d
    {
      if line.Some? {
        var _ := machine.FillBuffer(va, line.value);
        LinesUntouched();
      }
    }

    /** `system_read` on descriptor 0, one look: the line goes where the pointer leads. */
    method ReadEvent(va: int, ghost w: Whole)
      requires Ready() && w == Now() && w.Good() && CanOccur(w, Reading(va))
      modifies lines`log, lines`got, lines.mailbox, machine`mem, machine.console.vram
      ensures Ready() && Now() == WholeStep(lines.img, w, Reading(va))
    {
      if va != 0 {
        ReadLine(va, w, w.s, w.d);
      }
    }

    method ReadLine(va: int, ghost w: Whole, ghost s: State, ghost d: Desks)
      requires Ready() && s == machine.Abs() && d == AllDesks() && w == Whole(s, d) && w.Good() && 0 <= va < 0x1_0000_0000
      modifies lines`log, lines`got, lines.mailbox, machine`mem, machine.console.vram
      ensures Ready() && machine.Abs() == Session.Delivered(s, va, Delivery(w))
      ensures AllDesks() == AtDesks(lines.img, d, Asked(s.Turn()))
    {
      var buf := new byte[128](_ => NUL);
      ghost var before := buf[..];
      var done, r := ReadOnce(buf, s, d);
      LookDelivers(w, done, r, before, buf[..]);
      HandOut(va, if done then Some(buf[..r]) else None, s, AtDesks(lines.img, d, Asked(s.Turn())));
    }

    method OtherStep(x: Step, ghost s: State, ghost u: State)
      requires Ready() && machine.Valid() && s == machine.Abs() && Possible(s, x) && u == Go(s, x)
      modifies machine, machine.table, machine.table.processNum, machine.table.currTask, machine.table.parentPid
      modifies machine.console, machine.console.vram, machine.mmu.pageDir, machine.mmu.pageTable
      ensures Ready() && machine.Abs() == u && AllDesks().desk == old(AllDesks().desk)
    {
      machine.Advance(x, s, u);
      LinesUntouched();
    }

    method OtherEvent(x: Step, ghost w: Whole)
      requires Ready() && w == Now() && w.Good() && CanOccur(w, Other(x))
      modifies machine, machine.table, machine.table.processNum, machine.table.currTask, machine.table.parentPid
      modifies machine.console, machine.console.vram, machine.mmu.pageDir, machine.mmu.pageTable
      ensures Ready() && Now() == WholeStep(lines.img, w, Other(x))
    {
      OtherStep(x, w.s, Go(w.s, x));
      OtherIsStep(lines.img, w, x, Now());
    }

    method OneEvent(e: TerminalEvent, after: seq<byte>, ghost w: Whole)
      requires Ready() && 32 <= |after| && w == Now() && w.Good() && CanOccur(w, e)
      modifies lines`saveIdx, lines`log, lines`got, lines.saveBuf, lines.mailbox
      modifies machine, machine.table, machine.table.processNum, machine.table.currTask, machine.table.parentPid
      modifies machine.console, machine.console.vram, machine.mmu.pageDir, machine.mmu.pageTable
      ensures Ready() && Now() == WholeStep(lines.img, w, e)
    {
      match e
      case Pressed(k) => KeyEvent(k, after, w);
      case Reading(va) => ReadEvent(va, w);
      case Other(x) => OtherEvent(x, w);
    }

    /** Any keys, reads and other steps of the system, in any order. */
    method RunAll(events: seq<TerminalEvent>, after: seq<byte>)
      requires Ready() && 32 <= |after| && Now().Good() && Occurs(lines.img, Now(), events)
      modifies lines`saveIdx, lines`log, lines`got, lines.saveBuf, lines.mailbox
      modifies machine, machine.table, machine.table.processNum, machine.table.currTask, machine.table.parentPid
      modifies machine.console, machine.console.vram, machine.mmu.pageDir, machine.mmu.pageTable
      ensures Ready() && Now() == RunWhole(lines.img, old(Now()), events)
      decreases |events|
    {
      if events != [] {
        OneEvent(events[0], after, Now());
        RunAll(events[1..], after);
      }
    }
  }

  /** What one look for a line reports, and what it leaves in the buffer. */
  predicate Looked(d: Desks, turn: int, fd: int, done: bool, r: int, before: seq<byte>, now: seq<byte>)
    requires d.Valid()
  {
    var mail := d.desk[d.active].mail;
    if fd != 0 then done && r == -1 && now == before
    else Handed(if turn == d.active then mail else None, done, r, before, now)
  }

  predicate Handed(mail: Option<seq<byte>>, done: bool, r: int, before: seq<byte>, now: seq<byte>) {
    if mail == None then !done && now == before
    else
      && done && r == |mail.value| + 1 <= 128 && |now| == |before| >= r
      && now[..r] == mail.value + [LINE_FEED] && now[r..] == before[r..]
  }

  lemma LookDelivers(w: Whole, done: bool, r: int, before: seq<byte>, now: seq<byte>)
    requires w.Good() && Looked(w.d, w.s.Turn(), 0, done, r, before, now)
    ensures Delivery(w) == if done then Some(now[..r]) else None
  {
  }

  /** Only one of three desks changes. */
  lemma OneDesk(before: seq<Desk>, now: seq<Desk>, t: int, d: Desk)
    requires |before| == |now| == 3 && 0 <= t < 3 && now[t] == d
    requires forall u :: 0 <= u < 3 && u != t ==> now[u] == before[u]
    ensures now == before[t := d]
  {
  }
}
