/** An image made of a list of files: each gets the next index block and the next data blocks. */
module Packing {
  import opened Bytes
  import opened DiskImage
  import opened FileImage
  import opened Names
  import opened Files
  import opened ReadBack

  datatype File = File(name: seq<byte>, contents: seq<byte>)

  /** The contents in blocks, the last one filled up with zeros. */
  function Chunks(text: seq<byte>): (parts: seq<seq<byte>>)
    ensures forall k :: 0 <= k < |parts| ==> |parts[k]| == 4096
    decreases |text|
  {
    if text == [] then []
    else if |text| <= 4096 then [text + Zeros(4096 - |text|)]
    else [text[..4096]] + Chunks(text[4096..])
  }

  lemma {:induction false} ChunksHold(text: seq<byte>)
    ensures |text| <= 4096 * |Chunks(text)| == |Flat(Chunks(text))| && Flat(Chunks(text))[..|text|] == text
    ensures |Chunks(text)| == BlocksFor(|text|)
    decreases |text|
  {
    FlatSize(Chunks(text), 4096);
    if 0 < |text| <= 4096 {
      var part := text + Zeros(4096 - |text|);
      assert Chunks(text)[1..] == [];
      assert Flat(Chunks(text)) == part + Flat([]) == part;
    } else if text != [] {
      ChunksHold(text[4096..]);
      assert Chunks(text)[1..] == Chunks(text[4096..]);
      assert text == text[..4096] + text[4096..];
      OneBlockMore(|text| - 4096);
    }
  }

  lemma OneBlockMore(n: nat)
    ensures BlocksFor(n + 4096) == BlocksFor(n) + 1
  {
  }

  function Data(files: seq<File>): (parts: seq<seq<byte>>)
    ensures forall k :: 0 <= k < |parts| ==> |parts[k]| == 4096
  {
    if files == [] then [] else Chunks(files[0].contents) + Data(files[1..])
  }

  /** The index blocks, if the first data block has number `first`. */
  function Inodes(files: seq<File>, first: nat): (inodes: seq<Inode>)
    ensures |inodes| == |files|
    decreases |files|, first
  {
    if files == [] then []
    else
      var n := |Chunks(files[0].contents)|;
      [Inode(|files[0].contents|, seq(n, k requires 0 <= k < n => first + k))] + Inodes(files[1..], first + n)
  }

  /** "." for the directory itself, then the files. */
  function Pack(files: seq<File>): Disk {
    Disk([DirEntry([46], 1, 0)] + seq(|files|, i requires 0 <= i < |files| => DirEntry(files[i].name, 2, i)),
         Inodes(files, 0), Data(files))
  }

  /** At most 62 files with proper names of their own, and 1023 blocks for all of them. */
  predicate Packable(files: seq<File>) {
    && |files| <= 62 && |Data(files)| <= 1023
    && (forall i :: 0 <= i < |files| ==> 1 <= |files[i].name| <= 32 && NulFree(files[i].name) && files[i].name != [46])
    && (forall i, j :: 0 <= i < j < |files| ==> files[i].name != files[j].name)
  }

  /** Each file's block numbers lead to its own chunks. */
  lemma {:induction false} BlocksLead(pre: seq<seq<byte>>, files: seq<File>, i: nat, all: seq<seq<byte>>)
    requires i < |files| && all == pre + Data(files)
    ensures var f := Inodes(files, |pre|)[i]; var parts := Chunks(files[i].contents);
            && f.length == |files[i].contents| && |f.blocks| == |parts| <= |Data(files)|
            && forall k :: 0 <= k < |parts| ==> f.blocks[k] < |all| && all[f.blocks[k]] == parts[k]
    decreases |files|
  {
    var longer := pre + Chunks(files[0].contents);
    if i > 0 {
      assert all == longer + Data(files[1..]);
      BlocksLead(longer, files[1..], i - 1, all);
    }
  }

  lemma PackedInode(files: seq<File>, i: nat)
    requires Packable(files) && i < |files|
    ensures Pack(files).Placed(Pack(files).inodes[i])
  {
    BlocksLead([], files, i, Data(files));
    ChunksHold(files[i].contents);
  }

  lemma PackedValid(files: seq<File>)
    requires Packable(files)
    ensures Pack(files).Valid()
  {
    forall i | 0 <= i < |files|
      ensures Pack(files).Placed(Pack(files).inodes[i])
    {
      PackedInode(files, i);
    }
  }

  lemma PackedContents(files: seq<File>, i: nat)
    requires Packable(files) && i < |files|
    ensures Pack(files).Valid() && Contents(Pack(files), i) == files[i].contents
  {
    PackedValid(files);
    BlocksLead([], files, i, Data(files));
    ChunksHold(files[i].contents);
    assert Pack(files).Blocks(i) == Chunks(files[i].contents);
  }

  /**
   A file's name, looked up in the image of any list of files, leads to its contents: the inode
   found gives the part asked for, for every offset and length that do not wrap around.
   */
  method FetchPacked(files: seq<File>, i: nat, offset: int, buf: array<byte>, length: int) returns (kind: int, inode: int, r: int)
    requires Packable(files) && i < |files| && 0 <= offset < WRAP && 0 <= length < WRAP && length <= buf.Length
    requires NoWrapDamage(|files[i].contents|, offset, length)
    modifies buf
    ensures kind == 2
    ensures var part := Slice(files[i].contents, offset, length);
            r == |part| <= buf.Length && buf[..r] == part && buf[r..] == old(buf[r..])
  {
    PackedContents(files, i);
    ContentsRead(Pack(files), i);
    var d := Pack(files);
    var found, dentry;
    kind, found, dentry := LookUpStored(d, i + 1);
    inode := dentry.inode;
    r := ReadStored(d, inode, offset, buf, length);
  }
}
