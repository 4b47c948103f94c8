/**
 `read` from end to end: the next part of a file, or the line waiting at the terminal, arrives
 byte for byte in the memory of the process that asked for it.
 */
module SystemRead {
  import opened Bytes
  import opened FileImage
  import opened Files
  import opened Descriptors
  import opened Paging
  import opened System
  import opened Kernel
  import opened Isolation
  import opened Session

  /** Bytes filled into a buffer in the program page are found there, as far as the page goes. */
  lemma FilledArrive(s: State, va: int, bytes: seq<byte>, j: int)
    requires s.Good() && PROGRAM_PAGE <= va && 0 <= j < |bytes| && va + j < PROGRAM_PAGE + FRAME
    ensures Read(FillBuffer(s, va, bytes).mem, FrameBase(s.procs.main) + (va - PROGRAM_PAGE) + j) == bytes[j]
  {
    var k := va - PROGRAM_PAGE + j;
    PatchesLand(s, Fill(va, bytes), k);
    AfterCopy(va, bytes, j, Read(s.mem, FrameBase(s.procs.main) + k));
  }

  /** The byte at position `pos + j` of the file is at `va + j` of the process that read it there. */
  lemma FileArrives(img: seq<byte>, t: seq<Fd>, fd: int, n: int, s: State, va: int, j: int)
    requires Sane(img, t) && Readable(t, fd) && ReadFile(img, t, fd, n).1.Bytes?
    requires s.Good() && PROGRAM_PAGE <= va && 0 <= j < |ReadFile(img, t, fd, n).1.bytes| && va + j < PROGRAM_PAGE + FRAME
    ensures t[fd].pos + j < Size(img, t[fd].inode) && GoodBlock(img, t[fd].inode, (t[fd].pos + j) / 4096)
    ensures Read(FillBuffer(s, va, ReadFile(img, t, fd, n).1.bytes).mem, FrameBase(s.procs.main) + (va - PROGRAM_PAGE) + j) ==
            FlatAt(img, t[fd].inode, t[fd].pos + j)
  {
    var bytes := ReadFile(img, t, fd, n).1.bytes;
    ReadIs(img, t, fd, n, j);
    FilledArrive(s, va, bytes, j);
  }

  lemma ReadIs(img: seq<byte>, t: seq<Fd>, fd: int, n: int, j: int)
    requires Sane(img, t) && Readable(t, fd) && ReadFile(img, t, fd, n).1.Bytes? && 0 <= j < |ReadFile(img, t, fd, n).1.bytes|
    ensures t[fd].pos + j < Size(img, t[fd].inode) && GoodBlock(img, t[fd].inode, (t[fd].pos + j) / 4096)
    ensures ReadFile(img, t, fd, n).1.bytes[j] == FlatAt(img, t[fd].inode, t[fd].pos + j)
  {
    var end := ReadEnd(Size(img, t[fd].inode), t[fd].pos, n);
    assert (t[fd].pos + j) / 4096 < BlocksFor(end);
  }

  /** So is the line a terminal read delivers, and its line feed. */
  lemma LineArrives(img: seq<byte>, w: Whole, va: int, j: int)
    requires WellFormed(img) && w.Good() && CanOccur(w, Reading(va)) && Delivery(w).Some?
    requires PROGRAM_PAGE <= va && 0 <= j < |Delivery(w).value| && va + j < PROGRAM_PAGE + FRAME
    ensures Read(WholeStep(img, w, Reading(va)).s.mem, FrameBase(w.s.procs.main) + (va - PROGRAM_PAGE) + j) ==
            Delivery(w).value[j]
  {
    FilledArrive(w.s, va, Delivery(w).value, j);
  }

  /**
   `system_read` on a regular file: reads the next part, moves the position and puts the bytes
   where the pointer leads; of a read that fails, those before the bad block.
   */
  method SystemReadFile(m: Machine, p: Process, fd: int, va: int, n: int) returns (r: int)
    requires m.Linked() && p.Valid() && 0 <= va < 0x1_0000_0000 && -SIGN <= n < SIGN
    requires 0 <= fd < 8 ==> p.fdt[fd].ops == FileOps
    modifies p.fdt, m`mem, m.console.vram
    ensures m.Linked() && p.Valid()
    ensures var (t, res) := ReadFile(p.img, old(p.fdt[..]), fd, n);
            if va == 0 || !(0 <= fd < 8) then r == -1 && p.fdt[..] == old(p.fdt[..]) && m.Abs() == old(m.Abs())
            else
              && p.fdt[..] == t && r == (if res.Failed? then -1 else |res.bytes|)
              && m.Abs() == FillBuffer(old(m.Abs()), va, res.bytes)
  {
    if va == 0 || fd < 0 || fd > 7 { return -1; }
    ghost var res := ReadFile(p.img, p.fdt[..], fd, n).1;
    var bytes;
    r, bytes := ReadBytes(p, fd, n);
    var _ := m.FillBuffer(va, bytes);
  }

  /** What arrives in a buffer of the size asked for. */
  method ReadBytes(p: Process, fd: int, n: int) returns (r: int, bytes: seq<byte>)
    requires p.Valid() && 0 <= fd < 8 && p.fdt[fd].ops == FileOps && -SIGN <= n < SIGN
    modifies p.fdt
    ensures p.Valid()
    ensures var (t, res) := ReadFile(p.img, old(p.fdt[..]), fd, n);
            p.fdt[..] == t && bytes == res.bytes && r == if res.Failed? then -1 else |bytes|
  {
    var buf := new byte[if n < 0 then 0 else n](_ => NUL);
    var count := 0;
    if n >= 0 && p.fdt[fd].used {
      var size := FileLength(p.img, p.fdt[fd].inode);
      assert size == Size(p.img, p.fdt[fd].inode);
      count := |PartRead(p.img, p.fdt[fd].inode, p.fdt[fd].pos, ReadEnd(size, p.fdt[fd].pos, n)).bytes|;
    }
    r := p.FileRead(fd, buf, n);
    bytes := buf[..count];
  }
}
