/** `cat` and `ls` in a new process, on an image whose contents are known. */
module StoredPrograms {
  import opened Bytes
  import opened DiskImage
  import opened FileImage
  import opened Names
  import opened Files
  import opened Descriptors
  import opened ReadBack
  import Cat
  import Ls

  lemma TypeStored(d: Disk, i: nat, e: DirEntry)
    requires d.Valid() && FirstNamed(d, i) && e == d.entries[i]
    ensures FilesNamed(Image(d)) && Find(Image(d), e.name, 0) == i
    ensures TypeNamed(Image(d), e.name) == e.kind && InodeOf(Image(d), i) == e.inode && Name(Image(d), i) == e.name
    ensures e.kind == 2 ==> e.inode < |d.inodes|
  {
    ImageFilesNamed(d);
    NameFound(d, i, e.name);
    EntryRead(d, i, e);
    assert d.Storable(e);
  }

  /** In a new table a file always opens, on descriptor 2. */
  lemma NewOpensFile(img: seq<byte>, stale: seq<Ops>, name: seq<byte>)
    requires FilesNamed(img) && |stale| == 8 && TypeNamed(img, name) == FILE_TYPE
    ensures Open(img, NewTable(stale), name).1 == 2
  {
    var t := NewTable(stale);
    assert t[0].used && t[1].used && !t[2].used;
    assert FirstFree(t, 0) == 2;
    assert IsInode(img, InodeOf(img, Find(img, name, 0)));
  }

  lemma NewOpensDirectory(img: seq<byte>, stale: seq<Ops>, name: seq<byte>)
    requires FilesNamed(img) && |stale| == 8 && TypeNamed(img, name) == DIR_TYPE && name == Name(img, 0)
    ensures var (t, fd) := Open(img, NewTable(stale), name); fd == 2 && |t| == 8 && t[2].pos == 0
  {
    var t := NewTable(stale);
    assert t[0].used && t[1].used && !t[2].used;
    assert FirstFree(t, 0) == 2;
  }

  lemma CopiesStored(d: Disk, i: nat, status: int, out: seq<byte>)
    requires d.Valid() && i < |d.inodes| && IsInode(Image(d), i) && Cat.Copies(Image(d), i, status, out)
    ensures status == 0 && out == Contents(d, i)
  {
    ContentsRead(d, i);
  }

  /** `cat` of a stored file writes exactly its contents. */
  method CatStored(d: Disk, i: nat, stale: seq<Ops>) returns (status: int, out: seq<byte>)
    requires d.Valid() && FirstNamed(d, i) && d.entries[i].kind == 2 && |stale| == 8
    ensures d.Storable(d.entries[i]) && status == 0 && out == Contents(d, d.entries[i].inode)
  {
    var e := d.entries[i];
    TypeStored(d, i, e);
    NewOpensFile(Image(d), stale, e.name);
    assert d.Storable(e);
    var p := new Process(Image(d), stale);
    status, out := Cat.RunCat(p, Cat.Argument(e.name));
    CopiesStored(d, e.inode, status, out);
  }

  lemma GoodUpTo(img: seq<byte>, inode: int, to: int)
    requires IsInode(img, inode) && AllGood(img, inode) && 0 <= to <= Size(img, inode)
    ensures BlocksGood(img, inode, BlocksFor(to))
  {
    assert BlocksFor(to) <= BlocksFor(Size(img, inode));
  }

  lemma PartOfContent(img: seq<byte>, inode: int, from: int, to: int)
    requires IsInode(img, inode) && AllGood(img, inode) && 0 <= from <= to <= Size(img, inode)
    requires BlocksGood(img, inode, BlocksFor(from)) && BlocksGood(img, inode, BlocksFor(to))
    ensures Part(img, inode, from, to) == Content(img, inode)[from..to]
  {
    var part, whole := Part(img, inode, from, to), Content(img, inode);
    forall k | 0 <= k < to - from
      ensures part[k] == whole[from + k]
    {
    }
  }

  lemma PartStored(d: Disk, i: nat, from: int, to: int)
    requires d.Valid() && i < |d.inodes| && IsInode(Image(d), i) && 0 <= from <= to <= Size(Image(d), i)
    ensures BlocksGood(Image(d), i, BlocksFor(from)) && to <= |Contents(d, i)|
    ensures PartRead(Image(d), i, from, to) == Bytes(Contents(d, i)[from..to])
  {
    ContentsRead(d, i);
    GoodUpTo(Image(d), i, from);
    GoodUpTo(Image(d), i, to);
    PartOfContent(Image(d), i, from, to);
  }

  lemma FileReadStored(d: Disk, t: seq<Fd>, fd: int, n: int)
    requires d.Valid() && Sane(Image(d), t) && Readable(t, fd) && 0 <= n
    ensures 0 <= t[fd].inode < |d.inodes| && 0 <= t[fd].pos <= |Contents(d, t[fd].inode)|
    ensures var part := Slice(Contents(d, t[fd].inode), t[fd].pos, n);
            ReadFile(Image(d), t, fd, n) == (t[fd := t[fd].(pos := t[fd].pos + |part|)], Bytes(part))
  {
    var e := t[fd];
    OpenFilePlaced(Image(d), t, fd, e);
    CountsRead(d);
    ContentsRead(d, e.inode);
    StoredInode(d, e.inode);
    var end := ReadEnd(Size(Image(d), e.inode), e.pos, n);
    PartStored(d, e.inode, e.pos, end);
    SliceToEnd(Contents(d, e.inode), e.pos, n, end);
    ReadFileIs(Image(d), t, fd, n, e, Slice(Contents(d, e.inode), e.pos, n));
  }

  lemma SliceToEnd(text: seq<byte>, pos: int, n: int, end: int)
    requires 0 <= pos <= |text| && 0 <= n && end == ReadEnd(|text|, pos, n)
    ensures pos <= end <= |text| && Slice(text, pos, n) == text[pos..end]
  {
  }

  lemma OpenFilePlaced(img: seq<byte>, t: seq<Fd>, fd: int, e: Fd)
    requires Sane(img, t) && Readable(t, fd) && e == t[fd]
    ensures IsInode(img, e.inode) && 0 <= e.pos <= Size(img, e.inode) && BlocksGood(img, e.inode, BlocksFor(e.pos))
  {
    assert PositionFine(img, e);
  }

  lemma ReadFileIs(img: seq<byte>, t: seq<Fd>, fd: int, n: int, e: Fd, part: seq<byte>)
    requires Sane(img, t) && Readable(t, fd) && e == t[fd] && 0 <= n
    requires IsInode(img, e.inode) && 0 <= e.pos <= Size(img, e.inode) && BlocksGood(img, e.inode, BlocksFor(e.pos))
    requires PartRead(img, e.inode, e.pos, ReadEnd(Size(img, e.inode), e.pos, n)) == Bytes(part)
    ensures ReadFile(img, t, fd, n) == (t[fd := e.(pos := e.pos + |part|)], Bytes(part))
  {
  }

  /** `file_read` on an open stored file returns the next bytes of its contents, as many as wanted and left, and moves past them. */
  method ReadThrough(d: Disk, p: Process, fd: int, buf: array<byte>, n: int) returns (r: int)
    requires d.Valid() && p.Valid() && p.img == Image(d) && Readable(p.fdt[..], fd) && 0 <= n < SIGN && n <= buf.Length
    modifies p.fdt, buf
    ensures p.Valid()
    ensures var e := old(p.fdt[fd]);
            && 0 <= e.inode < |d.inodes| && 0 <= e.pos <= |Contents(d, e.inode)|
            && var part := Slice(Contents(d, e.inode), e.pos, n);
               && r == |part| && buf[..r] == part && buf[r..] == old(buf[r..])
               && p.fdt[..] == old(p.fdt[..])[fd := e.(pos := e.pos + r)]
  {
    FileReadStored(d, p.fdt[..], fd, n);
    r := p.FileRead(fd, buf, n);
  }

  /** The names in the directory. */
  function StoredNames(d: Disk): seq<seq<byte>> {
    seq(|d.entries|, i requires 0 <= i < |d.entries| => d.entries[i].name)
  }

  lemma NamesStored(d: Disk)
    requires d.Valid() && WellFormed(Image(d))
    ensures Ls.NamesFrom(Image(d), 0) == StoredNames(d)
  {
    CountsRead(d);
    AllNamesRead(d);
  }

  /** `ls` writes all stored names in order, one a line. */
  method LsStored(d: Disk, stale: seq<Ops>, after: seq<byte>) returns (status: int, out: seq<byte>)
    requires d.Valid() && d.entries != [] && d.entries[0].name == [46] && d.entries[0].kind == 1
    requires |stale| == 8 && 64 <= |after|
    ensures status == 0 && out == Ls.Listing(StoredNames(d))
  {
    TypeStored(d, 0, d.entries[0]);
    NewOpensDirectory(Image(d), stale, Ls.DOT);
    NamesStored(d);
    var p := new Process(Image(d), stale);
    status, out := Ls.RunLs(p, after);
  }
}
