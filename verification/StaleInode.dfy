/** A run of opens and closes after which a regular file that nobody has open is refused. */
module StaleInode {
  import opened Bytes
  import opened FileImage
  import opened Names
  import opened Files

  lemma FirstFreeIs(t: seq<Fd>, from: nat, k: nat)
    requires from <= k < |t| && !t[k].used && forall j :: from <= j < k ==> t[j].used
    ensures FirstFree(t, from) == k
  {
  }

  /** Descriptor `fd` is the first free one, and no open entry carries the inode number. */
  predicate FreeFor(t: seq<Fd>, fd: nat, inode: int) {
    && |t| == 8 && fd < 8 && !t[fd].used && (forall j :: 0 <= j < fd ==> t[j].used)
    && (forall j :: 0 <= j < 8 && t[j].used ==> t[j].inode != inode)
  }

  lemma NextFree(t: seq<Fd>, x: int, y: int)
    requires FreeFor(t, 2, x) && FreeFor(t, 2, y) && x != y && !t[3].used
    ensures FreeFor(t[2 := Fd(FileOps, x, 0, true)], 3, y)
  {
  }

  lemma NewFree(stale: seq<Ops>, x: int)
    requires |stale| == 8 && 0 <= x
    ensures FreeFor(NewTable(stale), 2, x) && !NewTable(stale)[3].used
  {
  }

  lemma FileOpens(img: seq<byte>, t: seq<Fd>, name: seq<byte>, fd: nat, inode: int)
    requires FilesNamed(img) && TypeNamed(img, name) == FILE_TYPE && inode == InodeOf(img, Find(img, name, 0))
    requires FreeFor(t, fd, inode)
    ensures Open(img, t, name) == (t[fd := Fd(FileOps, inode, 0, true)], fd)
  {
    FirstFreeIs(t, 0, fd);
  }

  lemma FileOpened(img: seq<byte>, t: seq<Fd>, name: seq<byte>, fd: nat, inode: int) returns (u: seq<Fd>)
    requires Sane(img, t) && TypeNamed(img, name) == FILE_TYPE && inode == InodeOf(img, Find(img, name, 0))
    requires FreeFor(t, fd, inode)
    ensures u == StepTable(img, t, OpenOp(name)) == t[fd := Fd(FileOps, inode, 0, true)] && Sane(img, u)
  {
    FileOpens(img, t, name, fd, inode);
    StepSane(img, t, OpenOp(name));
    u := StepTable(img, t, OpenOp(name));
  }

  lemma FileClosed(img: seq<byte>, t: seq<Fd>, fd: nat) returns (u: seq<Fd>)
    requires Sane(img, t) && 2 <= fd < 8 && t[fd].used && t[fd].ops == FileOps
    ensures u == StepTable(img, t, CloseOp(fd)) == t[fd := Fd(FileOps, t[fd].inode, 0, false)] && Sane(img, u)
  {
    StepSane(img, t, CloseOp(fd));
    u := StepTable(img, t, CloseOp(fd));
  }

  lemma ClockOpened(img: seq<byte>, t: seq<Fd>, name: seq<byte>, fd: nat) returns (u: seq<Fd>)
    requires Sane(img, t) && TypeNamed(img, name) == CLOCK_TYPE
    requires 2 <= fd < 8 && !t[fd].used && (forall j :: 2 <= j < fd ==> t[j].used)
    ensures u == StepTable(img, t, OpenOp(name)) == t[fd := t[fd].(ops := ClockOps, used := true)] && Sane(img, u)
  {
    FirstFreeIs(t, 2, fd);
    StepSane(img, t, OpenOp(name));
    u := StepTable(img, t, OpenOp(name));
  }

  lemma TwoOpened(img: seq<byte>, t: seq<Fd>, a: seq<byte>, b: seq<byte>, x: int, y: int) returns (u: seq<Fd>, v: seq<Fd>)
    requires Sane(img, t) && TypeNamed(img, a) == FILE_TYPE && TypeNamed(img, b) == FILE_TYPE
    requires x == InodeOf(img, Find(img, a, 0)) != y == InodeOf(img, Find(img, b, 0))
    requires FreeFor(t, 2, x) && FreeFor(t, 2, y) && !t[3].used
    ensures u == StepTable(img, t, OpenOp(a)) && Sane(img, u) && v == StepTable(img, u, OpenOp(b)) && Sane(img, v)
    ensures v == t[2 := Fd(FileOps, x, 0, true)][3 := Fd(FileOps, y, 0, true)]
  {
    u := FileOpened(img, t, a, 2, x);
    NextFree(t, x, y);
    v := FileOpened(img, u, b, 3, y);
  }

  lemma TwoClosed(img: seq<byte>, t: seq<Fd>, x: int, y: int) returns (u: seq<Fd>, v: seq<Fd>)
    requires Sane(img, t) && t[2] == Fd(FileOps, x, 0, true) && t[3] == Fd(FileOps, y, 0, true)
    ensures u == StepTable(img, t, CloseOp(2)) && Sane(img, u) && v == StepTable(img, u, CloseOp(3)) && Sane(img, v)
    ensures v == t[2 := Fd(FileOps, x, 0, false)][3 := Fd(FileOps, y, 0, false)]
  {
    u := FileClosed(img, t, 2);
    v := FileClosed(img, u, 3);
  }

  /** A file's inode is one of the image, so none of the terminal's entries carries it. */
  lemma FileInode(img: seq<byte>, name: seq<byte>)
    requires FilesNamed(img) && TypeNamed(img, name) == FILE_TYPE
    ensures 0 <= InodeOf(img, Find(img, name, 0))
  {
  }

  lemma SetAgain(t: seq<Fd>, a: Fd, b: Fd, c: Fd, d: Fd)
    requires |t| == 8
    ensures t[2 := a][3 := b][2 := c][3 := d] == t[2 := c][3 := d]
    ensures t[2 := a][3 := b][2 := c] == t[2 := c][3 := b]
  {
  }

  /** Two files opened in turn are in descriptors 2 and 3; closed again they leave their inode numbers behind. */
  lemma OpenedAndClosed(img: seq<byte>, stale: seq<Ops>, a: seq<byte>, b: seq<byte>, x: int, y: int) returns (t: seq<Fd>)
    requires FilesNamed(img) && |stale| == 8 && TypeNamed(img, a) == FILE_TYPE && TypeNamed(img, b) == FILE_TYPE
    requires x == InodeOf(img, Find(img, a, 0)) != y == InodeOf(img, Find(img, b, 0))
    ensures Sane(img, t) && Reaches(img, NewTable(stale), [OpenOp(a), OpenOp(b), CloseOp(2), CloseOp(3)], t)
    ensures t == NewTable(stale)[2 := Fd(FileOps, x, 0, false)][3 := Fd(FileOps, y, 0, false)]
  {
    FileInode(img, a);
    FileInode(img, b);
    NewFree(stale, x);
    NewFree(stale, y);
    NewTableSane(img, stale);
    t := FromNew(img, NewTable(stale), a, b, x, y);
  }

  lemma FromNew(img: seq<byte>, t: seq<Fd>, a: seq<byte>, b: seq<byte>, x: int, y: int) returns (w: seq<Fd>)
    requires Sane(img, t) && TypeNamed(img, a) == FILE_TYPE && TypeNamed(img, b) == FILE_TYPE
    requires x == InodeOf(img, Find(img, a, 0)) != y == InodeOf(img, Find(img, b, 0))
    requires FreeFor(t, 2, x) && FreeFor(t, 2, y) && !t[3].used
    ensures Sane(img, w) && Reaches(img, t, [OpenOp(a), OpenOp(b), CloseOp(2), CloseOp(3)], w)
    ensures w == t[2 := Fd(FileOps, x, 0, false)][3 := Fd(FileOps, y, 0, false)]
  {
    var t1, t2 := TwoOpened(img, t, a, b, x, y);
    var t3;
    t3, w := TwoClosed(img, t2, x, y);
    SetAgain(t, Fd(FileOps, x, 0, true), Fd(FileOps, y, 0, true), Fd(FileOps, x, 0, false), Fd(FileOps, y, 0, false));
    FourOps(img, t, t1, t2, t3, w, OpenOp(a), OpenOp(b), CloseOp(2), CloseOp(3));
  }

  ghost predicate Reaches(img: seq<byte>, t: seq<Fd>, ops: seq<FdOp>, u: seq<Fd>) {
    Sane(img, t) && RunTable(img, t, ops) == u
  }

  lemma OpThen(img: seq<byte>, t: seq<Fd>, op: FdOp, rest: seq<FdOp>, u: seq<Fd>, v: seq<Fd>)
    requires Sane(img, t) && u == StepTable(img, t, op) && Reaches(img, u, rest, v)
    ensures Reaches(img, t, [op] + rest, v)
  {
    assert ([op] + rest)[1..] == rest;
  }

  lemma FourOps(img: seq<byte>, t: seq<Fd>, u: seq<Fd>, v: seq<Fd>, w: seq<Fd>, x: seq<Fd>, a: FdOp, b: FdOp, c: FdOp, d: FdOp)
    requires Sane(img, t) && u == StepTable(img, t, a) && Sane(img, u) && v == StepTable(img, u, b)
    requires Sane(img, v) && w == StepTable(img, v, c) && Sane(img, w) && x == StepTable(img, w, d) && Sane(img, x)
    ensures Reaches(img, t, [a, b, c, d], x)
  {
    assert RunTable(img, x, []) == x;
    OpThen(img, w, d, [], x, x);
    OpThen(img, v, c, [d] + [], w, x);
    OpThen(img, u, b, [c] + ([d] + []), v, x);
    OpThen(img, t, a, [b] + ([c] + ([d] + [])), u, x);
    assert [a] + ([b] + ([c] + ([d] + []))) == [a, b, c, d];
  }

  lemma ThreeOps(img: seq<byte>, t: seq<Fd>, u: seq<Fd>, v: seq<Fd>, w: seq<Fd>, a: FdOp, b: FdOp, c: FdOp)
    requires Sane(img, t) && u == StepTable(img, t, a) && Sane(img, u) && v == StepTable(img, u, b)
    requires Sane(img, v) && w == StepTable(img, v, c) && Sane(img, w)
    ensures Reaches(img, t, [a, b, c], w)
  {
    assert RunTable(img, w, []) == w;
    OpThen(img, v, c, [], w, w);
    OpThen(img, u, b, [c] + [], v, w);
    OpThen(img, t, a, [b] + ([c] + []), u, w);
    assert [a] + ([b] + ([c] + [])) == [a, b, c];
  }

  lemma FileAndClock(img: seq<byte>, t: seq<Fd>, b: seq<byte>, clock: seq<byte>, y: int) returns (u: seq<Fd>, v: seq<Fd>)
    requires Sane(img, t) && TypeNamed(img, b) == FILE_TYPE && y == InodeOf(img, Find(img, b, 0))
    requires TypeNamed(img, clock) == CLOCK_TYPE && FreeFor(t, 2, y) && !t[3].used
    ensures u == StepTable(img, t, OpenOp(b)) && Sane(img, u) && v == StepTable(img, u, OpenOp(clock)) && Sane(img, v)
    ensures v == t[2 := Fd(FileOps, y, 0, true)][3 := t[3].(ops := ClockOps, used := true)]
  {
    u := FileOpened(img, t, b, 2, y);
    v := ClockOpened(img, u, clock, 3);
  }

  /** The clock opened where a file's inode number was left, while that file is open elsewhere, keeps the number. */
  lemma ClockInbetween(img: seq<byte>, t: seq<Fd>, b: seq<byte>, clock: seq<byte>, y: int) returns (u: seq<Fd>)
    requires Sane(img, t) && TypeNamed(img, b) == FILE_TYPE && y == InodeOf(img, Find(img, b, 0))
    requires TypeNamed(img, clock) == CLOCK_TYPE && FreeFor(t, 2, y) && !t[3].used
    ensures Sane(img, u) && Reaches(img, t, [OpenOp(b), OpenOp(clock), CloseOp(2)], u)
    ensures u == t[2 := Fd(FileOps, y, 0, false)][3 := t[3].(ops := ClockOps, used := true)]
  {
    var t1, t2 := FileAndClock(img, t, b, clock, y);
    u := FileClosed(img, t2, 2);
    var entry := t[3].(ops := ClockOps, used := true);
    SetAgain(t, Fd(FileOps, y, 0, true), entry, Fd(FileOps, y, 0, false), entry);
    ThreeOps(img, t, t1, t2, u, OpenOp(b), OpenOp(clock), CloseOp(2));
  }

  /** Two entries of a new process's table used and left again: the first is the first free one. */
  lemma StillFree(stale: seq<Ops>, a: Fd, b: Fd, y: int)
    requires |stale| == 8 && 0 <= y && !a.used && !b.used
    ensures FreeFor(NewTable(stale)[2 := a][3 := b], 2, y)
  {
  }

  lemma OnlyClockUsed(stale: seq<Ops>, a: Fd, b: Fd, c: Fd, d: Fd, u: seq<Fd>)
    requires |stale| == 8 && !c.used && d.ops == ClockOps && u == NewTable(stale)[2 := a][3 := b][2 := c][3 := d]
    ensures !u[2].used && forall i :: 0 <= i < 8 && u[i].used ==> u[i].ops != FileOps
  {
  }

  lemma Refused(img: seq<byte>, t: seq<Fd>, name: seq<byte>, fd: int)
    requires Sane(img, t) && TypeNamed(img, name) == FILE_TYPE
    requires 0 <= fd < 8 && t[fd].used && t[fd].inode == InodeOf(img, Find(img, name, 0))
    ensures Open(img, t, name) == (t, -1)
  {
  }

  /**
   It does happen that a file nobody has open is refused, from the table of a new process on:
   open two files, close both, open the second again, open the clock, close the file.
   */
  lemma StaleClockRefuses(img: seq<byte>, stale: seq<Ops>, a: seq<byte>, b: seq<byte>, clock: seq<byte>)
    returns (t: seq<Fd>, u: seq<Fd>)
    requires FilesNamed(img) && |stale| == 8 && TypeNamed(img, a) == FILE_TYPE && TypeNamed(img, b) == FILE_TYPE
    requires TypeNamed(img, clock) == CLOCK_TYPE && InodeOf(img, Find(img, a, 0)) != InodeOf(img, Find(img, b, 0))
    ensures Reaches(img, NewTable(stale), [OpenOp(a), OpenOp(b), CloseOp(2), CloseOp(3)], t)
    ensures Reaches(img, t, [OpenOp(b), OpenOp(clock), CloseOp(2)], u)
    ensures Sane(img, u) && !u[2].used && (forall i :: 0 <= i < 8 && u[i].used ==> u[i].ops != FileOps)
    ensures Open(img, u, b) == (u, -1)
  {
    var x, y := InodeOf(img, Find(img, a, 0)), InodeOf(img, Find(img, b, 0));
    t := OpenedAndClosed(img, stale, a, b, x, y);
    FileInode(img, b);
    var left, other := Fd(FileOps, x, 0, false), Fd(FileOps, y, 0, false);
    StillFree(stale, left, other, y);
    u := ClockInbetween(img, t, b, clock, y);
    OnlyClockUsed(stale, left, other, other, other.(ops := ClockOps, used := true), u);
    Refused(img, u, b, 3);
  }
}
