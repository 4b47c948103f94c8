/**
 A process's descriptor table and what reading through it yields.  The specification works on
 the table as a sequence of eight entries; the class below it updates the table in place.
 */
module Files {
  import opened Bytes
  import opened FileImage
  import opened Names

  /** Which operations a descriptor is bound to; an entry never opened is bound to nothing. */
  datatype Ops = Unbound | TerminalOps | ClockOps | DirOps | FileOps

  datatype Fd = Fd(ops: Ops, inode: int, pos: int, used: bool)

  const CLOCK_TYPE := 0
  const DIR_TYPE := 1
  const FILE_TYPE := 2

  /** Every entry of file type names an inode of the image. */
  predicate FilesNamed(img: seq<byte>) {
    WellFormed(img) && forall i :: 0 <= i < ENTRIES && TypeOf(img, i) == FILE_TYPE ==> IsInode(img, InodeOf(img, i))
  }

  function FirstFree(t: seq<Fd>, i: nat): (r: int)
    requires i <= |t|
    ensures r == -1 || (i <= r < |t| && !t[r].used)
    ensures forall j :: i <= j < (if r == -1 then |t| else r) ==> t[j].used
    decreases |t| - i
  {
    if i == |t| then -1 else if !t[i].used then i else FirstFree(t, i + 1)
  }

  predicate InodeOpen(t: seq<Fd>, inode: int) {
    exists i :: 0 <= i < |t| && t[i].used && t[i].inode == inode
  }

  /** The type of the named entry, as `open` sees it. */
  function TypeNamed(img: seq<byte>, name: seq<byte>): int
    requires 4096 <= |img|
  {
    if 1 <= |name| <= 32 && Find(img, name, 0) != -1 then TypeOf(img, Find(img, name, 0)) else -1
  }

  /** The table after opening `name`, and the descriptor or -1. */
  function Open(img: seq<byte>, t: seq<Fd>, name: seq<byte>): (seq<Fd>, int)
    requires FilesNamed(img) && |t| == 8
  {
    var kind := TypeNamed(img, name);
    if kind == CLOCK_TYPE then
      var fd := FirstFree(t, 2);
      if fd == -1 then (t, -1) else (t[fd := t[fd].(ops := ClockOps, used := true)], fd)
    else if kind == DIR_TYPE then
      var fd := FirstFree(t, 0);
      if fd == -1 || name != Name(img, 0) then (t, -1)
      else (t[fd := t[fd].(ops := DirOps, inode := InodeOf(img, 0), used := true)], fd)
    else if kind == FILE_TYPE then
      var inode := InodeOf(img, Find(img, name, 0));
      var fd := FirstFree(t, 0);
      if fd == -1 || InodeOpen(t, inode) then (t, -1) else (t[fd := Fd(FileOps, inode, 0, true)], fd)
    else (t, -1)
  }

  /** The table after closing, and 0 or -1.  A clock stays open; a directory keeps its position. */
  function Close(t: seq<Fd>, fd: int): (seq<Fd>, int)
    requires |t| == 8
  {
    if fd < 0 || fd > 7 then (t, -1)
    else match t[fd].ops
      case ClockOps => (t, 0)
      case DirOps => if t[fd].used then (t[fd := t[fd].(used := false)], 0) else (t, -1)
      case FileOps => if t[fd].used then (t[fd := t[fd].(used := false, pos := 0)], 0) else (t, -1)
      case _ => (t, -1)
  }

  // ----- Invariant over all runs -----

  /** An open file's position lies within the part of it that can be read; any other position within the directory. */
  predicate PositionFine(img: seq<byte>, e: Fd)
    requires WellFormed(img)
  {
    if e.used && e.ops == FileOps
    then IsInode(img, e.inode) && 0 <= e.pos <= Size(img, e.inode) && BlocksGood(img, e.inode, BlocksFor(e.pos))
    else 0 <= e.pos <= DirCount(img)
  }

  ghost predicate Sane(img: seq<byte>, t: seq<Fd>) {
    && FilesNamed(img) && |t| == 8
    && t[0].used && t[0].ops == TerminalOps && t[1].used && t[1].ops == TerminalOps
    && (forall i :: 2 <= i < 8 && t[i].used ==> t[i].ops == ClockOps || t[i].ops == DirOps || t[i].ops == FileOps)
    && (forall i :: 0 <= i < 8 ==> PositionFine(img, t[i]))
    && (forall i, j :: 0 <= i < j < 8 && t[i].used && t[j].used && t[i].ops == FileOps && t[j].ops == FileOps ==>
          t[i].inode != t[j].inode)
  }

  /** A fresh entry in a free place keeps the table sane. */
  lemma EntryTaken(img: seq<byte>, t: seq<Fd>, fd: int, e: Fd)
    requires Sane(img, t) && 0 <= fd < 8 && !t[fd].used && PositionFine(img, e)
    requires e.used && (e.ops == ClockOps || e.ops == DirOps || (e.ops == FileOps && !InodeOpen(t, e.inode)))
    ensures 2 <= fd && Sane(img, t[fd := e])
  {
    var u := t[fd := e];
    forall i, j | 0 <= i < j < 8 && u[i].used && u[j].used && u[i].ops == FileOps && u[j].ops == FileOps
      ensures u[i].inode != u[j].inode
    {
    }
  }

  /** Opening: refused without a trace, or the first free descriptor and nothing else. */
  lemma OpenSane(img: seq<byte>, t: seq<Fd>, name: seq<byte>)
    requires Sane(img, t)
    ensures var (u, fd) := Open(img, t, name);
            && Sane(img, u)
            && (fd == -1 ==> u == t)
            && (fd != -1 ==> 2 <= fd < 8 && !t[fd].used && u[fd].used && u == t[fd := u[fd]]
                             && (forall j :: 0 <= j < fd ==> t[j].used))
            && (fd != -1 ==> match TypeNamed(img, name)
                             case 0 => u[fd].ops == ClockOps
                             case 1 => u[fd].ops == DirOps && u[fd].pos == t[fd].pos
                             case _ => u[fd].ops == FileOps && u[fd].pos == 0)
  {
    var (u, fd) := Open(img, t, name);
    if fd != -1 {
      OpenedEntry(img, t, name, u, fd);
      EntryTaken(img, t, fd, u[fd]);
    }
  }

  lemma OpenedEntry(img: seq<byte>, t: seq<Fd>, name: seq<byte>, u: seq<Fd>, fd: int)
    requires Sane(img, t) && (u, fd) == Open(img, t, name) && fd != -1
    ensures 0 <= fd < 8 && !t[fd].used && u == t[fd := u[fd]] && u[fd].used && PositionFine(img, u[fd])
    ensures u[fd].ops == ClockOps || u[fd].ops == DirOps || (u[fd].ops == FileOps && !InodeOpen(t, u[fd].inode))
    ensures fd == FirstFree(t, if u[fd].ops == ClockOps then 2 else 0)
    ensures match TypeNamed(img, name)
            case 0 => u[fd].ops == ClockOps
            case 1 => u[fd].ops == DirOps && u[fd].pos == t[fd].pos
            case _ => u[fd].ops == FileOps && u[fd].pos == 0
  {
  }

  /** Closing: frees an open descriptor iff it is not the terminal's and not a clock's. */
  lemma CloseSane(img: seq<byte>, t: seq<Fd>, fd: int)
    requires Sane(img, t)
    ensures var (u, r) := Close(t, fd);
            && Sane(img, u) && (r == -1 ==> u == t)
            && (0 <= fd < 8 ==> u == t[fd := u[fd]]) && (!(2 <= fd < 8) ==> u == t)
            && (0 <= fd < 8 && t[fd].used ==> (!u[fd].used <==> 2 <= fd && t[fd].ops != ClockOps))
  {
  }

  /** A closed regular file opens again, at its start, unless another open entry carries its inode number. */
  lemma CloseThenOpen(img: seq<byte>, t: seq<Fd>, fd: int, name: seq<byte>)
    requires Sane(img, t) && 2 <= fd < 8 && t[fd].used && t[fd].ops == FileOps
    requires TypeNamed(img, name) == FILE_TYPE && InodeOf(img, Find(img, name, 0)) == t[fd].inode
    ensures var (u, again) := Open(img, Close(t, fd).0, name);
            && (again != -1 <==> forall i :: 0 <= i < 8 && i != fd && t[i].used ==> t[i].inode != t[fd].inode)
            && (again != -1 ==> u[again] == Fd(FileOps, t[fd].inode, 0, true) && again <= fd)
  {
    var closed := Close(t, fd).0;
    assert !closed[fd].used;
    assert forall i :: 0 <= i < 8 && i != fd ==> closed[i] == t[i];
  }

  // ----- Reading -----

  predicate AllGood(img: seq<byte>, inode: int)
    requires IsInode(img, inode)
  {
    BlocksGood(img, inode, BlocksFor(Size(img, inode)))
  }

  /** Bytes `from` to `to` of a file whose blocks up to there are in range. */
  function Part(img: seq<byte>, inode: int, from: int, to: int): (s: seq<byte>)
    requires IsInode(img, inode) && 0 <= from <= to <= Size(img, inode) && BlocksGood(img, inode, BlocksFor(to))
    ensures |s| == to - from
  {
    assert forall k :: 0 <= k < to ==> k / 4096 < BlocksFor(to);
    seq<byte>(to - from, k requires 0 <= k < to - from => FlatAt(img, inode, from + k))
  }

  function Content(img: seq<byte>, inode: int): seq<byte>
    requires IsInode(img, inode) && AllGood(img, inode)
  {
    Part(img, inode, 0, Size(img, inode))
  }

  /** Where a read of `n` bytes at `pos` ends. */
  function ReadEnd(size: int, pos: int, n: int): int { if pos + n < size then pos + n else size }

  predicate Readable(t: seq<Fd>, fd: int) {
    |t| == 8 && 0 <= fd < 8 && t[fd].used && t[fd].ops == FileOps
  }

  /** The table after reading, and the bytes, or nothing for -1. */
  function ReadFile(img: seq<byte>, t: seq<Fd>, fd: int, n: int): (seq<Fd>, Result)
    requires Sane(img, t) && (Readable(t, fd) || !(0 <= fd < 8) || !t[fd].used)
  {
    if n < 0 || fd < 0 || fd >= 8 || !t[fd].used then (t, Failed([]))
    else
      var r := PartRead(img, t[fd].inode, t[fd].pos, ReadEnd(Size(img, t[fd].inode), t[fd].pos, n));
      (if r.Bytes? then t[fd := t[fd].(pos := t[fd].pos + |r.bytes|)] else t, r)
  }

  /** The bytes read, or those left in the buffer by a read that failed. */
  datatype Result = Failed(bytes: seq<byte>) | Bytes(bytes: seq<byte>)

  /** Bytes `from` to `to`, or as far as the blocks are in range. */
  function PartRead(img: seq<byte>, inode: int, from: int, to: int): (r: Result)
    requires IsInode(img, inode) && 0 <= from <= to <= Size(img, inode) && BlocksGood(img, inode, BlocksFor(from))
    ensures r.Bytes? <==> BlocksGood(img, inode, BlocksFor(to))
    ensures r.Bytes? ==> r.bytes == Part(img, inode, from, to)
  {
    var bad := FirstBad(img, inode, 0, BlocksFor(to));
    if bad == BlocksFor(to) then Bytes(Part(img, inode, from, to))
    else
      assert BlocksFor(from) <= bad;
      Failed(Part(img, inode, from, 4096 * bad))
  }

  lemma ReadSane(img: seq<byte>, t: seq<Fd>, fd: int, n: int)
    requires Sane(img, t) && Readable(t, fd)
    ensures Sane(img, ReadFile(img, t, fd, n).0) && Readable(ReadFile(img, t, fd, n).0, fd)
  {
  }

  /** What a sequence of reads returns altogether, and the table after it. */
  function ReadMany(img: seq<byte>, t: seq<Fd>, fd: int, sizes: seq<int>): (seq<Fd>, seq<byte>)
    requires Sane(img, t) && Readable(t, fd)
    decreases |sizes|
  {
    if sizes == [] then (t, [])
    else
      ReadSane(img, t, fd, sizes[0]);
      var (u, r) := ReadFile(img, t, fd, sizes[0]);
      var (v, rest) := ReadMany(img, u, fd, sizes[1..]);
      (v, (if r.Failed? then [] else r.bytes) + rest)
  }

  lemma PartsJoin(img: seq<byte>, inode: int, from: int, mid: int, to: int)
    requires IsInode(img, inode) && 0 <= from <= mid <= to <= Size(img, inode) && BlocksGood(img, inode, BlocksFor(to))
    ensures BlocksFor(mid) <= BlocksFor(to)
    ensures Part(img, inode, from, mid) + Part(img, inode, mid, to) == Part(img, inode, from, to)
  {
    assert BlocksFor(mid) <= BlocksFor(to);
  }

  /** A read returns the part of the file its position moves over; a failed one returns nothing and moves nothing. */
  lemma OneRead(img: seq<byte>, t: seq<Fd>, fd: int, n: int)
    requires Sane(img, t) && Readable(t, fd)
    ensures var (u, r) := ReadFile(img, t, fd, n);
            && Sane(img, u) && Readable(u, fd) && u[fd].inode == t[fd].inode
            && t[fd].pos <= u[fd].pos <= Size(img, t[fd].inode) && BlocksGood(img, t[fd].inode, BlocksFor(u[fd].pos))
            && (if r.Failed? then [] else r.bytes) == Part(img, t[fd].inode, t[fd].pos, u[fd].pos)
  {
    ReadSane(img, t, fd, n);
  }

  /**
   Reads of any sizes return consecutive pieces of the file: together exactly the part between
   the old and the new position, which never passes the end.
   */
  lemma {:induction false} ChunksReassemble(img: seq<byte>, t: seq<Fd>, fd: int, sizes: seq<int>)
    requires Sane(img, t) && Readable(t, fd)
    ensures var (u, all) := ReadMany(img, t, fd, sizes);
            && Sane(img, u) && Readable(u, fd) && u[fd].inode == t[fd].inode
            && t[fd].pos <= u[fd].pos <= Size(img, t[fd].inode)
            && BlocksGood(img, t[fd].inode, BlocksFor(u[fd].pos))
            && all == Part(img, t[fd].inode, t[fd].pos, u[fd].pos)
    decreases |sizes|
  {
    var inode := t[fd].inode;
    PartsJoin(img, inode, t[fd].pos, t[fd].pos, t[fd].pos);
    if sizes != [] {
      var u := ReadFile(img, t, fd, sizes[0]).0;
      OneRead(img, t, fd, sizes[0]);
      ChunksReassemble(img, u, fd, sizes[1..]);
      var v := ReadMany(img, u, fd, sizes[1..]).0;
      PartsJoin(img, inode, t[fd].pos, u[fd].pos, v[fd].pos);
    }
  }

  /** At the end of the file every further read returns nothing. */
  lemma ReadsAtEnd(img: seq<byte>, t: seq<Fd>, fd: int, n: nat)
    requires Sane(img, t) && Readable(t, fd) && t[fd].pos == Size(img, t[fd].inode)
    ensures ReadFile(img, t, fd, n) == (t, Bytes([]))
  {
    assert t[fd := t[fd]] == t;
  }

  // ----- The directory -----

  /** The names in the directory. */
  function DirNames(img: seq<byte>): (names: seq<seq<byte>>)
    requires WellFormed(img)
    ensures |names| == DirCount(img)
  {
    seq(DirCount(img), i requires 0 <= i < DirCount(img) => Name(img, i))
  }

  /** What a read of the directory at a position returns, and where the position goes; the end returns no name. */
  function NameRead(names: seq<seq<byte>>, pos: nat): seq<byte> {
    if pos < |names| then names[pos] else []
  }

  function NextPos(names: seq<seq<byte>>, pos: nat): nat {
    if pos < |names| then pos + 1 else pos
  }

  /** The names `n` reads in a row return. */
  function ListDir(names: seq<seq<byte>>, pos: nat, n: nat): (listed: seq<seq<byte>>)
    ensures |listed| == n
    decreases n, pos
  {
    if n == 0 then [] else [NameRead(names, pos)] + ListDir(names, NextPos(names, pos), n - 1)
  }

  /** The `k`-th read returns the name `k` entries on, or nothing once the entries are used up. */
  lemma {:induction false} DirectoryListed(names: seq<seq<byte>>, pos: nat, n: nat, k: nat)
    requires k < n
    ensures ListDir(names, pos, n)[k] == if pos + k < |names| then names[pos + k] else []
    decreases n
  {
    if k > 0 {
      DirectoryListed(names, NextPos(names, pos), n - 1, k - 1);
    }
  }

  /**
   A directory that is closed and opened again takes the first free entry and goes on listing
   where that entry was last left; it is the same entry iff all before it are in use.
   */
  lemma DirectoryReopens(img: seq<byte>, t: seq<Fd>, fd: int, name: seq<byte>)
    requires Sane(img, t) && 2 <= fd < 8 && t[fd].used && t[fd].ops == DirOps
    requires TypeNamed(img, name) == DIR_TYPE && name == Name(img, 0)
    ensures var closed := Close(t, fd).0; var (u, again) := Open(img, closed, name);
            && 2 <= again <= fd && !closed[again].used && (forall j :: 0 <= j < again ==> t[j].used)
            && u == closed[again := Fd(DirOps, InodeOf(img, 0), t[again].pos, true)]
            && (again == fd <==> forall j :: 0 <= j < fd ==> t[j].used)
  {
    var closed := Close(t, fd).0;
    assert !closed[fd].used && forall j :: 0 <= j < 8 && j != fd ==> closed[j] == t[j];
    var again := FirstFree(closed, 0);
    assert again != -1 && again <= fd;
  }

  /** The table after a read of the directory. */
  function ReadDir(img: seq<byte>, t: seq<Fd>, fd: int): seq<Fd>
    requires Sane(img, t) && 0 <= fd < 8 && t[fd].used && t[fd].ops == DirOps
  {
    t[fd := t[fd].(pos := NextPos(DirNames(img), t[fd].pos))]
  }

  // ----- Whole runs -----

  datatype FdOp = OpenOp(name: seq<byte>) | CloseOp(fd: int) | ReadOp(fd: int, n: int)

  function StepTable(img: seq<byte>, t: seq<Fd>, op: FdOp): seq<Fd>
    requires Sane(img, t)
  {
    match op
    case OpenOp(name) => Open(img, t, name).0
    case CloseOp(fd) => Close(t, fd).0
    case ReadOp(fd, n) =>
      if Readable(t, fd) then ReadFile(img, t, fd, n).0
      else if 0 <= fd < 8 && t[fd].used && t[fd].ops == DirOps then ReadDir(img, t, fd)
      else t
  }

  lemma StepSane(img: seq<byte>, t: seq<Fd>, op: FdOp)
    requires Sane(img, t)
    ensures Sane(img, StepTable(img, t, op))
  {
    match op
    case OpenOp(name) => OpenSane(img, t, name);
    case CloseOp(fd) => CloseSane(img, t, fd);
    case ReadOp(fd, n) => if Readable(t, fd) { ReadSane(img, t, fd, n); }
  }

  function RunTable(img: seq<byte>, t: seq<Fd>, ops: seq<FdOp>): (u: seq<Fd>)
    requires Sane(img, t)
    ensures |u| == 8
    decreases |ops|
  {
    if ops == [] then t else StepSane(img, t, ops[0]); RunTable(img, StepTable(img, t, ops[0]), ops[1..])
  }

  /** The table of a new process; the bindings of unused entries are whatever was left there. */
  function NewTable(stale: seq<Ops>): seq<Fd>
    requires |stale| == 8
  {
    seq(8, i requires 0 <= i < 8 =>
      if i < 2 then Fd(TerminalOps, -1, 0, true) else Fd(stale[i], -1, 0, false))
  }

  /**
   Over all runs of opens, closes and reads: 0 and 1 stay open on the terminal, no two open
   files share an inode, and positions stay within their files.
   */
  lemma {:induction false} DescriptorsSane(img: seq<byte>, t: seq<Fd>, ops: seq<FdOp>)
    requires Sane(img, t)
    ensures Sane(img, RunTable(img, t, ops))
    decreases |ops|
  {
    if ops != [] {
      StepSane(img, t, ops[0]);
      DescriptorsSane(img, StepTable(img, t, ops[0]), ops[1..]);
    }
  }

  lemma NewTableSane(img: seq<byte>, stale: seq<Ops>)
    requires FilesNamed(img) && |stale| == 8
    ensures Sane(img, NewTable(stale))
  {
  }

  /** A clock's descriptor is never freed: whatever is opened, closed and read, it stays as it is. */
  lemma {:induction false} ClockStays(img: seq<byte>, t: seq<Fd>, ops: seq<FdOp>, fd: int)
    requires Sane(img, t) && 0 <= fd < 8 && t[fd].used && t[fd].ops == ClockOps
    ensures RunTable(img, t, ops)[fd] == t[fd]
    decreases |ops|
  {
    if ops != [] {
      StepSane(img, t, ops[0]);
      ClockStaysOne(img, t, ops[0], fd);
      ClockStays(img, StepTable(img, t, ops[0]), ops[1..], fd);
    }
  }

  lemma ClockStaysOne(img: seq<byte>, t: seq<Fd>, op: FdOp, fd: int)
    requires Sane(img, t) && 0 <= fd < 8 && t[fd].used && t[fd].ops == ClockOps
    ensures StepTable(img, t, op)[fd] == t[fd]
  {
    match op
    case OpenOp(name) => OpenSane(img, t, name);
    case CloseOp(c) => CloseSane(img, t, c);
    case ReadOp(_, _) =>
  }

  /** Reading the directory through its descriptor `n` times moves its position as listing does. */
  lemma {:induction false} DirectoryAdvances(img: seq<byte>, t: seq<Fd>, fd: int, n: nat, size: int)
    requires Sane(img, t) && 0 <= fd < 8 && t[fd].used && t[fd].ops == DirOps
    ensures var u := RunTable(img, t, seq(n, _ => ReadOp(fd, size)));
            u == t[fd := t[fd].(pos := if t[fd].pos + n < DirCount(img) then t[fd].pos + n else DirCount(img))]
    decreases n
  {
    var inARow := seq(n, _ => ReadOp(fd, size));
    if n == 0 {
      assert inARow == [];
      assert t == t[fd := t[fd].(pos := t[fd].pos)];
    } else {
      StepSane(img, t, inARow[0]);
      var u := StepTable(img, t, inARow[0]);
      assert u == ReadDir(img, t, fd);
      assert inARow[1..] == seq(n - 1, _ => ReadOp(fd, size));
      DirectoryAdvances(img, u, fd, n - 1, size);
    }
  }
}
