/** The descriptor table in a process control block, updated in place, and the `cat` program. */
module Descriptors {
  import opened Bytes
  import opened FileImage
  import opened Names
  import opened Files

  class Process {
    const img: seq<byte>
    const fdt: array<Fd>

    ghost predicate Valid()
      reads this, fdt
    {
      fdt.Length == 8 && Sane(img, fdt[..])
    }

    /** The descriptor part of `create_pcb`. */
    constructor (image: seq<byte>, stale: seq<Ops>)
      requires FilesNamed(image) && |stale| == 8
      ensures Valid() && img == image && fresh(fdt) && fdt[..] == NewTable(stale)
    {
      img := image;
      fdt := new Fd[8](i requires 0 <= i < 8 => Fd(stale[i], -1, 0, false));
      new;
      fdt[1] := Fd(TerminalOps, -1, 0, true);
      fdt[0] := Fd(TerminalOps, -1, 0, true);
      NewTableSane(image, stale);
      assert fdt[..] == NewTable(stale);
    }

    /** The first unused entry from `from` on, marked as used. */
    method TakeFree(from: int) returns (fd: int)
      requires fdt.Length == 8 && 0 <= from <= 8
      modifies fdt
      ensures fd == FirstFree(old(fdt[..]), from)
      ensures fdt[..] == if fd == -1 then old(fdt[..]) else old(fdt[..])[fd := old(fdt[..])[fd].(used := true)]
    {
      fd := from;
      while fd < 8
        invariant from <= fd <= 8 && fdt[..] == old(fdt[..])
        invariant FirstFree(fdt[..], from) == FirstFree(fdt[..], fd)
      {
        if !fdt[fd].used {
          fdt[fd] := fdt[fd].(used := true);
          return;
        }
        fd := fd + 1;
      }
      return -1;
    }

    /** `system_open`; a failed open leaves the table alone. */
    method SystemOpen(name: seq<byte>) returns (fd: int)
      requires Valid() && NulFree(name)
      modifies fdt
      ensures Valid() && (fdt[..], fd) == Open(img, old(fdt[..]), name)
    {
      OpenSane(img, fdt[..], name);
      var kind := GetFiletype(img, name);
      assert kind == TypeNamed(img, name);
      if kind == CLOCK_TYPE {
        fd := TakeFree(2);
        if fd == -1 { return; }
        fdt[fd] := fdt[fd].(ops := ClockOps);
        assert fdt[..] == Open(img, old(fdt[..]), name).0;
      } else if kind == DIR_TYPE {
        fd := DirOpen(name);
        if fd == -1 { return; }
        fdt[fd] := fdt[fd].(ops := DirOps);
        assert fdt[..] == Open(img, old(fdt[..]), name).0;
      } else if kind == FILE_TYPE {
        fd := FileOpen(name);
        if fd == -1 { return; }
        fdt[fd] := fdt[fd].(ops := FileOps);
        assert fdt[..] == Open(img, old(fdt[..]), name).0;
      } else {
        fd := -1;
      }
    }

    /** Whether an entry in use carries this inode number. */
    method IsInodeOpen(inode: int) returns (taken: bool)
      requires fdt.Length == 8
      ensures taken <==> InodeOpen(fdt[..], inode)
    {
      var index := 0;
      while index < 8
        invariant 0 <= index <= 8
        invariant forall i :: 0 <= i < index ==> !(fdt[i].used && fdt[i].inode == inode)
      {
        if fdt[index].used && fdt[index].inode == inode {
          assert fdt[..][index].used;
          return true;
        }
        index := index + 1;
      }
      return false;
    }

    method FileOpen(name: seq<byte>) returns (fd: int)
      requires fdt.Length == 8 && FilesNamed(img) && NulFree(name) && TypeNamed(img, name) == FILE_TYPE
      modifies fdt
      ensures var inode := InodeOf(img, Find(img, name, 0)); var t := old(fdt[..]);
              && fd == (if InodeOpen(t, inode) then -1 else FirstFree(t, 0))
              && fdt[..] == if fd == -1 then t else t[fd := Fd(t[fd].ops, inode, 0, true)]
    {
      var r, dentry := ReadDentryByName(img, name);
      if r == -1 || dentry.filetype == DIR_TYPE { return -1; }
      var taken := IsInodeOpen(dentry.inode);
      if taken { return -1; }
      fd := TakeFree(0);
      if fd != -1 {
        fdt[fd] := fdt[fd].(inode := dentry.inode);
        fdt[fd] := fdt[fd].(pos := 0);
      }
    }

    /** Opens the directory, which must be the first entry; the position is not reset. */
    method DirOpen(name: seq<byte>) returns (fd: int)
      requires fdt.Length == 8 && FilesNamed(img) && NulFree(name) && TypeNamed(img, name) == DIR_TYPE
      modifies fdt
      ensures var t := old(fdt[..]);
              && fd == (if name != Name(img, 0) then -1 else FirstFree(t, 0))
              && fdt[..] == if fd == -1 then t else t[fd := t[fd].(inode := InodeOf(img, 0), used := true)]
    {
      var same := SameName(img, name, 0);
      if !same { return -1; }
      var r, dentry := ReadDentryByName(img, name);
      assert Find(img, name, 0) == 0;
      if r == -1 || dentry.filetype != DIR_TYPE { return -1; }
      fd := TakeFree(0);
      if fd != -1 {
        fdt[fd] := fdt[fd].(inode := dentry.inode);
      }
    }

    /** `system_close`; closing an entry never bound to anything would call through a stray pointer. */
    method SystemClose(fd: int) returns (r: int)
      requires Valid() && (0 <= fd < 8 ==> fdt[fd].ops != Unbound)
      modifies fdt
      ensures Valid() && (fdt[..], r) == Close(old(fdt[..]), fd)
    {
      CloseSane(img, fdt[..], fd);
      if fd < 0 || fd > 7 { return -1; }
      match fdt[fd].ops {
        case ClockOps => return 0;
        case DirOps =>
          if !fdt[fd].used { return -1; }
          fdt[fd] := fdt[fd].(used := false);
          return 0;
        case FileOps =>
          if !fdt[fd].used { return -1; }
          fdt[fd] := fdt[fd].(pos := 0);
          fdt[fd] := fdt[fd].(used := false);
          assert fdt[..] == Close(old(fdt[..]), fd).0;
          return 0;
        case _ => return -1;
      }
    }

    /** Reads the next bytes of a file and moves its position past them. */
    method FileRead(fd: int, buf: array<byte>, nbytes: int) returns (r: int)
      requires Valid() && (Readable(fdt[..], fd) || !(0 <= fd < 8) || !fdt[fd].used)
      requires -SIGN <= nbytes < SIGN && nbytes <= buf.Length
      modifies fdt, buf
      ensures Valid()
      ensures var (t, bytes) := ReadFile(img, old(fdt[..]), fd, nbytes);
              fdt[..] == t && Returned(bytes, r, old(buf[..]), buf[..])
    {
      if nbytes < 0 { return -1; }
      if fd >= 8 || fd < 0 || !fdt[fd].used { return -1; }
      ReadSane(img, fdt[..], fd, nbytes);
      var offset := fdt[fd].pos;
      r := ReadPart(img, fdt[fd].inode, offset, buf, nbytes);
      if r == -1 { return; }
      fdt[fd] := fdt[fd].(pos := offset + r);
    }

    /**
     Copies at most `nbytes` of the name at the position and moves on; at the end it still
     copies what lies there as a name, but returns 0.  `after` is what memory holds behind the
     image.
     */
    method DirRead(fd: int, buf: array<byte>, nbytes: int, after: seq<byte>) returns (r: int)
      requires Valid() && 64 <= |after|
      requires 0 <= fd < 8 && fdt[fd].used ==>
                 fdt[fd].ops == DirOps && |FirstOf(Cut(RawAt(img, after, fdt[fd].pos)), nbytes)| <= buf.Length
      modifies fdt, buf
      ensures !(0 <= fd < 8) || !old(fdt[..])[fd].used ==> r == -1 && fdt[..] == old(fdt[..]) && buf[..] == old(buf[..])
      ensures 0 <= fd < 8 && old(fdt[..])[fd].used ==>
                var t := old(fdt[..]);
                && fdt[..] == ReadDir(img, t, fd)
                && PutAtStart(FirstOf(Cut(RawAt(img, after, t[fd].pos)), nbytes), old(buf[..]), buf[..])
                && (t[fd].pos < DirCount(img) ==> NameDelivered(Name(img, t[fd].pos), nbytes, r, buf[..]))
                && (t[fd].pos >= DirCount(img) ==> r == 0)
      ensures Valid()
    {
      if fd >= 8 || fd < 0 || !fdt[fd].used { return -1; }
      var pos := fdt[fd].pos;
      var n := CopyName(RawAt(img, after, pos), buf, nbytes);
      if pos < DirCount(img) {
        fdt[fd] := fdt[fd].(pos := pos + 1);
        return n;
      }
      assert fdt[..] == ReadDir(img, old(fdt[..]), fd);
      return 0;
    }
  }

  /** `buf` starts with the name, whole if `nbytes` allow or are negative, and else with its first `nbytes` bytes. */
  predicate NameDelivered(name: seq<byte>, nbytes: int, r: int, buf: seq<byte>) {
    && 0 <= r <= |buf| && r <= |name| && buf[..r] == name[..r]
    && (nbytes < 0 || |name| <= nbytes ==> r == |name|) && (0 <= nbytes < |name| ==> r == nbytes)
  }

  /** As much of a name as `nbytes` allow; a negative number counts as a huge one. */
  function FirstOf(name: seq<byte>, nbytes: int): seq<byte> {
    if 0 <= nbytes < |name| then name[..nbytes] else name
  }

  /** `bytes` at the start of the buffer, the rest as before. */
  predicate PutAtStart(bytes: seq<byte>, before: seq<byte>, now: seq<byte>) {
    |bytes| <= |now| == |before| && now[..|bytes|] == bytes && now[|bytes|..] == before[|bytes|..]
  }

  /** The part of `dir_read` below the descriptor check. */
  method CopyName(raw: seq<byte>, buf: array<byte>, nbytes: int) returns (n: int)
    requires |raw| == 32 && |FirstOf(Cut(raw), nbytes)| <= buf.Length
    modifies buf
    ensures n == |FirstOf(Cut(raw), nbytes)| && PutAtStart(FirstOf(Cut(raw), nbytes), old(buf[..]), buf[..])
  {
    var len := 0;
    while len < 32 && raw[len] != NUL
      invariant 0 <= len <= 32 && NulFree(raw[..len])
    {
      len := len + 1;
    }
    CutIs(raw, len);
    n := if 0 <= nbytes < len then nbytes else len;
    ghost var before := buf[..];
    var k := 0;
    while k < n
      invariant 0 <= k <= n && Filled(before, buf[..], 0, raw, k)
    {
      FillOne(before, buf[..], 0, raw, k);
      buf[k] := raw[k];
      k := k + 1;
    }
    FilledParts(before, buf[..], 0, raw, n);
  }

  /** The bytes lie at the start of the buffer, the rest of which is as before; `r` reports their number or the failure. */
  predicate Returned(bytes: Result, r: int, before: seq<byte>, now: seq<byte>) {
    match bytes
    case Failed(b) => r == -1 && PutAtStart(b, before, now)
    case Bytes(b) => r == |b| && PutAtStart(b, before, now)
  }

  /** The part of `file_read` below the descriptor. */
  method ReadPart(img: seq<byte>, inode: int, offset: int, buf: array<byte>, nbytes: int) returns (r: int)
    requires IsInode(img, inode) && 0 <= offset <= Size(img, inode) && BlocksGood(img, inode, BlocksFor(offset))
    requires 0 <= nbytes < SIGN && nbytes <= buf.Length
    modifies buf
    ensures Returned(PartRead(img, inode, offset, ReadEnd(Size(img, inode), offset, nbytes)), r, old(buf[..]), buf[..])
  {
    var size := FileLength(img, inode);
    assert size == Size(img, inode);
    var wanted := if nbytes >= size then size else nbytes;
    ReadIsPart(img, inode, offset, nbytes, wanted);
    ghost var before := buf[..];
    r := ReadData(img, inode, offset, buf, wanted);
    OutcomeIsPart(img, inode, PlanOf(size, offset, wanted), offset, ReadEnd(size, offset, nbytes), before, buf[..], r);
  }

  lemma OutcomeIsPart(img: seq<byte>, inode: int, p: Plan, from: int, to: int, before: seq<byte>, now: seq<byte>, r: int)
    requires IsInode(img, inode) && 0 <= from <= to <= Size(img, inode) && BlocksGood(img, inode, BlocksFor(from))
    requires p.count == to - from && p.blocks == BlocksFor(to) && (p.count > 0 ==> p.skip == from)
    requires Outcome(img, inode, p, before, now, r)
    ensures Returned(PartRead(img, inode, from, to), r, before, now)
  {
    var bad := FirstBad(img, inode, 0, p.blocks);
    if bad < p.blocks {
      BadOutcome(img, inode, p, from, to, bad, before, now);
    } else {
      CopiedIsPart(img, inode, p.skip, from, to, before, now);
    }
  }

  lemma BadOutcome(img: seq<byte>, inode: int, p: Plan, from: int, to: int, bad: int, before: seq<byte>, now: seq<byte>)
    requires IsInode(img, inode) && 0 <= from <= to <= Size(img, inode) && BlocksGood(img, inode, BlocksFor(from))
    requires p.count == to - from && p.blocks == BlocksFor(to) && (p.count > 0 ==> p.skip == from)
    requires bad == FirstBad(img, inode, 0, p.blocks) < p.blocks
    requires Copied(img, inode, p.skip, before, now, Done(p, 4096 * bad))
    ensures Returned(PartRead(img, inode, from, to), -1, before, now)
  {
    assert BlocksFor(from) <= bad;
    assert Done(p, 4096 * bad) == 4096 * bad - from;
    CopiedIsPart(img, inode, p.skip, from, 4096 * bad, before, now);
  }

  /** Reading `wanted` bytes at a position within the file is free of wrap-around. */
  lemma ReadIsPart(img: seq<byte>, inode: int, offset: int, nbytes: int, wanted: int)
    requires IsInode(img, inode) && 0 <= offset <= Size(img, inode) && 0 <= nbytes < SIGN
    requires wanted == if nbytes >= Size(img, inode) then Size(img, inode) else nbytes
    ensures var size := Size(img, inode); var p := PlanOf(size, offset, wanted); var end := ReadEnd(size, offset, nbytes);
            p.count == end - offset && p.blocks == BlocksFor(end) && (p.count > 0 ==> p.skip == offset)
  {
    PlanCorrect(Size(img, inode), offset, wanted);
  }

  lemma CopiedIsPart(img: seq<byte>, inode: int, skip: int, from: int, to: int, before: seq<byte>, now: seq<byte>)
    requires IsInode(img, inode) && 0 <= from <= to <= Size(img, inode) && BlocksGood(img, inode, BlocksFor(to))
    requires (from < to ==> skip == from) && Copied(img, inode, skip, before, now, to - from)
    ensures now[..to - from] == Part(img, inode, from, to) && now[to - from..] == before[to - from..]
  {
  }
}
