/** The `cat` program: a client that reads a file in chunks of 1024 bytes until nothing comes. */
module Cat {
  import opened Bytes
  import opened FileImage
  import opened Names
  import opened Files
  import opened Descriptors

  /** "could not read arguments\n", "file not found\n" and "file read failed\n" */
  const NO_ARGUMENTS: seq<byte> := [99, 111, 117, 108, 100, 32, 110, 111, 116, 32, 114, 101, 97, 100, 32, 97, 114, 103, 117, 109, 101, 110, 116, 115, 10]
  const NOT_FOUND: seq<byte> := [102, 105, 108, 101, 32, 110, 111, 116, 32, 102, 111, 117, 110, 100, 10]
  const READ_FAILED: seq<byte> := [102, 105, 108, 101, 32, 114, 101, 97, 100, 32, 102, 97, 105, 108, 101, 100, 10]

  datatype Arguments = NoArguments | Argument(name: seq<byte>)

  /** Runs `cat` on a regular file or on a name that does not exist; `out` is what it writes. */
  method RunCat(p: Process, arguments: Arguments) returns (status: int, out: seq<byte>)
    requires p.Valid()
    requires arguments.Argument? ==> NulFree(arguments.name) && TypeNamed(p.img, arguments.name) in {FILE_TYPE, -1}
    modifies p.fdt
    ensures p.Valid()
    ensures arguments == NoArguments ==> status == 3 && out == NO_ARGUMENTS
    ensures arguments.Argument? ==>
              var fd := Open(p.img, old(p.fdt[..]), arguments.name).1;
              if fd == -1 then status == 2 && out == NOT_FOUND
              else
                var inode := InodeOf(p.img, Find(p.img, arguments.name, 0));
                IsInode(p.img, inode) &&
                Copies(p.img, inode, status, out)
  {
    if arguments == NoArguments { return 3, NO_ARGUMENTS; }
    var fd := p.SystemOpen(arguments.name);
    if fd == -1 { return 2, NOT_FOUND; }
    status, out := CopyOut(p, fd);
  }

  /** The whole file, or all of it before the first block that is out of range, and the complaint. */
  ghost predicate Copies(img: seq<byte>, inode: int, status: int, out: seq<byte>)
    requires IsInode(img, inode)
  {
    var bad := FirstBad(img, inode, 0, BlocksFor(Size(img, inode)));
    if AllGood(img, inode) then status == 0 && out == Content(img, inode)
    else
      && status == 3 && 4096 * bad < Size(img, inode) && BlocksGood(img, inode, BlocksFor(4096 * bad))
      && out == Part(img, inode, 0, 4096 * bad) + READ_FAILED
  }

  /** The loop. */
  method CopyOut(p: Process, fd: int) returns (status: int, out: seq<byte>)
    requires p.Valid() && Readable(p.fdt[..], fd) && p.fdt[fd].pos == 0
    modifies p.fdt
    ensures p.Valid() && Copies(p.img, old(p.fdt[fd].inode), status, out)
  {
    ghost var inode := p.fdt[fd].inode;
    var buf := new byte[1024](_ => NUL);
    out := [];
    PartEmpty(p.img, inode);
    while true
      invariant p.Valid() && Readable(p.fdt[..], fd) && p.fdt[fd].inode == inode && fresh(buf) && buf.Length == 1024
      invariant SoFar(p.img, inode, p.fdt[fd].pos, out)
      decreases Size(p.img, inode) - p.fdt[fd].pos
    {
      ghost var pos := p.fdt[fd].pos;
      var cnt := ReadChunk(p, fd, buf, inode);
      if cnt == 0 {
        WholeCopies(p.img, inode, out);
        break;
      }
      if cnt == -1 {
        StoppedCopies(p.img, inode, pos, ReadEnd(Size(p.img, inode), pos, 1024), out);
        return 3, out + READ_FAILED;
      }
      ChunkAdded(p.img, inode, pos, pos + cnt, out, buf[..cnt]);
      out := out + buf[..cnt];
    }
    return 0, out;
  }

  /** What has been written when the position is `pos`: the file up to there. */
  ghost predicate SoFar(img: seq<byte>, inode: int, pos: int, out: seq<byte>)
    requires IsInode(img, inode)
  {
    && 0 <= pos <= Size(img, inode) && (pos == Size(img, inode) || pos % 1024 == 0)
    && BlocksGood(img, inode, BlocksFor(pos)) && out == Part(img, inode, 0, pos)
  }

  /** One read of up to 1024 bytes. */
  method ReadChunk(p: Process, fd: int, buf: array<byte>, ghost inode: int) returns (cnt: int)
    requires p.Valid() && Readable(p.fdt[..], fd) && p.fdt[fd].inode == inode && buf.Length == 1024
    modifies p.fdt, buf
    ensures p.Valid() && Readable(p.fdt[..], fd) && p.fdt[fd].inode == inode
    ensures var pos := old(p.fdt[fd].pos); var end := ReadEnd(Size(p.img, inode), pos, 1024);
            && 0 <= pos <= end <= Size(p.img, inode)
            && (if BlocksGood(p.img, inode, BlocksFor(end))
                then cnt == end - pos && p.fdt[fd].pos == end && buf[..cnt] == Part(p.img, inode, pos, end)
                else cnt == -1 && p.fdt[fd].pos == pos)
  {
    cnt := p.FileRead(fd, buf, 1024);
  }

  lemma ChunkAdded(img: seq<byte>, inode: int, pos: int, end: int, out: seq<byte>, chunk: seq<byte>)
    requires IsInode(img, inode) && SoFar(img, inode, pos, out) && pos <= end <= Size(img, inode)
    requires end == Size(img, inode) || end == pos + 1024
    requires BlocksGood(img, inode, BlocksFor(end)) && chunk == Part(img, inode, pos, end)
    ensures SoFar(img, inode, end, out + chunk)
  {
    PartGrows(img, inode, pos, end);
  }

  /** A read that fails does so at the start of the first bad block. */
  lemma StoppedAtBlock(img: seq<byte>, inode: int, pos: int, end: int)
    requires IsInode(img, inode) && 0 <= pos <= end <= Size(img, inode) && end <= pos + 1024 && pos % 1024 == 0
    requires BlocksGood(img, inode, BlocksFor(pos)) && !BlocksGood(img, inode, BlocksFor(end))
    ensures !AllGood(img, inode) && pos == 4096 * FirstBad(img, inode, 0, BlocksFor(Size(img, inode)))
  {
    var bad := FirstBad(img, inode, 0, BlocksFor(Size(img, inode)));
    assert BlocksFor(pos) <= bad < BlocksFor(end) <= BlocksFor(Size(img, inode));
    NextBlockStart(pos, bad);
  }

  lemma StoppedCopies(img: seq<byte>, inode: int, pos: int, end: int, out: seq<byte>)
    requires IsInode(img, inode) && SoFar(img, inode, pos, out) && pos <= end <= Size(img, inode) && end <= pos + 1024
    requires !BlocksGood(img, inode, BlocksFor(end))
    ensures Copies(img, inode, 3, out + READ_FAILED)
  {
    if pos < Size(img, inode) {
      StoppedAtBlock(img, inode, pos, end);
    }
  }

  lemma WholeCopies(img: seq<byte>, inode: int, out: seq<byte>)
    requires IsInode(img, inode) && SoFar(img, inode, Size(img, inode), out)
    ensures Copies(img, inode, 0, out)
  {
  }

  lemma NextBlockStart(pos: int, bad: int)
    requires pos % 1024 == 0 && pos <= 4096 * bad < pos + 1024
    ensures pos == 4096 * bad
  {
    assert pos == 1024 * (pos / 1024);
  }

  lemma PartEmpty(img: seq<byte>, inode: int)
    requires IsInode(img, inode)
    ensures BlocksGood(img, inode, BlocksFor(0)) && Part(img, inode, 0, 0) == []
  {
  }

  lemma PartGrows(img: seq<byte>, inode: int, mid: int, to: int)
    requires IsInode(img, inode) && 0 <= mid <= to <= Size(img, inode) && BlocksGood(img, inode, BlocksFor(to))
    ensures BlocksFor(mid) <= BlocksFor(to)
    ensures Part(img, inode, 0, mid) + Part(img, inode, mid, to) == Part(img, inode, 0, to)
  {
    assert BlocksFor(mid) <= BlocksFor(to);
  }
}
