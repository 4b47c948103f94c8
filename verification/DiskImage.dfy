/**
 A file system image written out byte by byte: boot block, index blocks, data blocks, with
 32-bit words lowest byte first.  Whatever is stored in such an image is found again by the
 code that reads it.
 */
module DiskImage {
  import opened Bytes

  /** A file: its length and the numbers of the data blocks that hold it, in order. */
  datatype Inode = Inode(length: nat, blocks: seq<nat>)

  /** A directory entry: 0 the clock, 1 a directory, 2 a file. */
  datatype DirEntry = DirEntry(name: seq<byte>, kind: nat, inode: nat)

  datatype Disk = Disk(entries: seq<DirEntry>, inodes: seq<Inode>, data: seq<seq<byte>>) {
    /** What fits the format. */
    predicate Valid() {
      && |entries| <= 63 && |inodes| < 0x8000_0000 && |data| <= 1023
      && (forall i :: 0 <= i < |entries| ==> Storable(entries[i]))
      && (forall i :: 0 <= i < |inodes| ==> Placed(inodes[i]))
      && (forall b :: 0 <= b < |data| ==> |data[b]| == 4096)
    }

    predicate Storable(e: DirEntry) {
      1 <= |e.name| <= 32 && NulFree(e.name) && e.kind <= 2 && e.inode < 0x8000_0000 && (e.kind == 2 ==> e.inode < |inodes|)
    }

    predicate Placed(f: Inode) {
      |f.blocks| <= 1023 && f.length <= 4096 * |f.blocks| && forall k :: 0 <= k < |f.blocks| ==> f.blocks[k] < |data|
    }

    /** The data blocks of a file, one behind the other. */
    function Blocks(i: int): (parts: seq<seq<byte>>)
      requires Valid() && 0 <= i < |inodes|
      ensures |parts| == |inodes[i].blocks| && forall k :: 0 <= k < |parts| ==> |parts[k]| == 4096
    {
      assert Placed(inodes[i]);
      var f := inodes[i];
      seq(|f.blocks|, k requires 0 <= k < |f.blocks| => data[f.blocks[k]])
    }
  }

  // ----- The bytes -----

  function Zeros(n: nat): (s: seq<byte>)
    ensures |s| == n && forall i :: 0 <= i < n ==> s[i] == 0
  {
    seq(n, _ => 0)
  }

  /** A 32-bit word, lowest byte first. */
  function Word(n: nat): (s: seq<byte>)
    requires n < 0x8000_0000
    ensures |s| == 4
  {
    [n % 0x100, n / 0x100 % 0x100, n / 0x1_0000 % 0x100, n / 0x100_0000]
  }

  /** One after the other. */
  function Flat(parts: seq<seq<byte>>): seq<byte> {
    if parts == [] then [] else parts[0] + Flat(parts[1..])
  }

  function EntryBytes(e: DirEntry): (s: seq<byte>)
    requires |e.name| <= 32 && e.kind < 0x8000_0000 && e.inode < 0x8000_0000
    ensures |s| == 64
  {
    e.name + Zeros(32 - |e.name|) + Word(e.kind) + Word(e.inode) + Zeros(24)
  }

  /** All 63 entries; unused ones are zero. */
  function Entries(d: Disk): (parts: seq<seq<byte>>)
    requires d.Valid()
    ensures |parts| == 63 && forall i :: 0 <= i < 63 ==> |parts[i]| == 64
  {
    seq(63, i requires 0 <= i < 63 =>
      if i < |d.entries| then (assert d.Storable(d.entries[i]); EntryBytes(d.entries[i])) else Zeros(64))
  }

  function Header(d: Disk): (s: seq<byte>)
    requires d.Valid()
    ensures |s| == 64
  {
    Word(|d.entries|) + Word(|d.inodes|) + Word(|d.data|) + Zeros(52)
  }

  predicate Numbered(f: Inode) {
    |f.blocks| <= 1023 && f.length < 0x8000_0000 && forall k :: 0 <= k < |f.blocks| ==> f.blocks[k] < 0x8000_0000
  }

  /** A length and 1023 block numbers; unused ones are zero. */
  function InodeNumbers(f: Inode): (ns: seq<nat>)
    requires Numbered(f)
    ensures |ns| == 1024 && forall i :: 0 <= i < 1024 ==> ns[i] < 0x8000_0000
  {
    [f.length] + f.blocks + seq(1023 - |f.blocks|, _ => 0)
  }

  function Words(ns: seq<nat>): (parts: seq<seq<byte>>)
    requires forall i :: 0 <= i < |ns| ==> ns[i] < 0x8000_0000
    ensures |parts| == |ns| && forall i :: 0 <= i < |ns| ==> |parts[i]| == 4 && parts[i] == Word(ns[i])
  {
    seq(|ns|, i requires 0 <= i < |ns| => Word(ns[i]))
  }

  /** The blocks of the image: the boot block, the index blocks, the data blocks. */
  function ImageBlocks(d: Disk): (parts: seq<seq<byte>>)
    requires d.Valid()
    ensures |parts| == 1 + |d.inodes| + |d.data|
  {
    var index := seq(|d.inodes|, i requires 0 <= i < |d.inodes| => (assert d.Placed(d.inodes[i]); Flat(Words(InodeNumbers(d.inodes[i])))));
    [Header(d) + Flat(Entries(d))] + index + d.data
  }

  function Image(d: Disk): seq<byte>
    requires d.Valid()
  {
    Flat(ImageBlocks(d))
  }

  /** The contents of a file. */
  function Contents(d: Disk, i: int): seq<byte>
    requires d.Valid() && 0 <= i < |d.inodes|
  {
    var all := Flat(d.Blocks(i));
    if d.inodes[i].length <= |all| then all[..d.inodes[i].length] else all
  }

  // ----- Where the parts lie -----

  lemma OneMore(size: nat, n: nat)
    ensures size * (n + 1) == size * n + size
  {
  }

  lemma {:induction false} FlatSize(parts: seq<seq<byte>>, size: nat)
    requires forall i :: 0 <= i < |parts| ==> |parts[i]| == size
    ensures |Flat(parts)| == size * |parts|
    decreases |parts|
  {
    if parts != [] {
      FlatSize(parts[1..], size);
      OneMore(size, |parts| - 1);
    }
  }

  /** Part `i` of equally long parts is found at `size * i`. */
  lemma {:induction false} FlatPart(parts: seq<seq<byte>>, size: nat, i: nat, at: int)
    requires (forall k :: 0 <= k < |parts| ==> |parts[k]| == size) && i < |parts| && at == size * i
    ensures 0 <= at && at + size <= |Flat(parts)| && Flat(parts)[at..at + size] == parts[i]
    decreases |parts|
  {
    FlatSize(parts[1..], size);
    if i > 0 {
      OneMore(size, i - 1);
      FlatPart(parts[1..], size, i - 1, at - size);
      assert Flat(parts)[at..at + size] == Flat(parts[1..])[at - size..at];
    }
  }
}
