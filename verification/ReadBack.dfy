/**
 What is stored in an image is read back: names and types by the lookups, contents by
 `read_data`, whatever blocks a file is spread over.
 */
module ReadBack {
  import opened Bytes
  import opened DiskImage
  import opened FileImage
  import opened Names
  import opened Files

  // ----- Words and parts -----

  /** A word is read back as the number it was written for. */
  lemma WordRead(img: seq<byte>, a: int, n: nat)
    requires 0 <= a && a + 4 <= |img| && n < SIGN && img[a..a + 4] == Word(n)
    ensures Int32At(img, a) == n
  {
    var w := img[a..a + 4];
    assert w[0] == img[a] && w[1] == img[a + 1] && w[2] == img[a + 2] && w[3] == img[a + 3];
    BytesOfNumber(n);
  }

  lemma BytesOfNumber(n: nat)
    ensures n % 0x100 + 0x100 * (n / 0x100 % 0x100) + 0x1_0000 * (n / 0x1_0000 % 0x100) + 0x100_0000 * (n / 0x100_0000) == n
  {
    assert n / 0x1_0000 == n / 0x100 / 0x100 && n / 0x100_0000 == n / 0x1_0000 / 0x100;
  }

  lemma PartOfPart(img: seq<byte>, a: int, part: seq<byte>, b: int, n: int)
    requires 0 <= a && a + |part| <= |img| && img[a..a + |part|] == part && 0 <= b && 0 <= n && b + n <= |part|
    ensures img[a + b..a + b + n] == part[b..b + n]
  {
    var got, want := img[a + b..a + b + n], part[b..b + n];
    forall k | 0 <= k < n
      ensures got[k] == want[k]
    {
      assert img[a..a + |part|][b + k] == part[b + k];
    }
  }

  // ----- The blocks of the image -----

  lemma IndexBlockSize(f: Inode)
    requires Numbered(f)
    ensures |Flat(Words(InodeNumbers(f)))| == 4096
  {
    FlatSize(Words(InodeNumbers(f)), 4);
  }

  lemma BlockSizes(d: Disk)
    requires d.Valid()
    ensures forall k :: 0 <= k < |ImageBlocks(d)| ==> |ImageBlocks(d)[k]| == 4096
    ensures |Image(d)| == 4096 * (1 + |d.inodes| + |d.data|)
  {
    FlatSize(Entries(d), 64);
    forall i | 0 <= i < |d.inodes|
      ensures d.Placed(d.inodes[i]) && |Flat(Words(InodeNumbers(d.inodes[i])))| == 4096
    {
      assert d.Placed(d.inodes[i]);
      IndexBlockSize(d.inodes[i]);
    }
    FlatSize(ImageBlocks(d), 4096);
  }

  lemma BlockAt(d: Disk, k: nat)
    requires d.Valid() && k < 1 + |d.inodes| + |d.data|
    ensures 4096 * k + 4096 <= |Image(d)| && |ImageBlocks(d)[k]| == 4096
    ensures Image(d)[4096 * k..4096 * k + 4096] == ImageBlocks(d)[k]
  {
    BlockSizes(d);
    FlatPart(ImageBlocks(d), 4096, k, 4096 * k);
  }

  lemma BootAt(d: Disk)
    requires d.Valid()
    ensures 4096 <= |Image(d)| && Image(d)[0..4096] == Header(d) + Flat(Entries(d))
  {
    BlockAt(d, 0);
  }

  lemma HeaderAt(d: Disk)
    requires d.Valid()
    ensures 4096 <= |Image(d)| && Image(d)[0..64] == Header(d)
  {
    BootAt(d);
    FlatSize(Entries(d), 64);
    PartOfPart(Image(d), 0, Header(d) + Flat(Entries(d)), 0, 64);
  }

  /** Entry `i` lies 64 bytes further on for each entry before it. */
  lemma EntryAtPlace(d: Disk, i: nat, at: int)
    requires d.Valid() && i < 63 && at == 64 + 64 * i
    ensures 4096 <= |Image(d)| && Image(d)[at..at + 64] == Entries(d)[i]
  {
    BootAt(d);
    EntryIn(Image(d), Header(d), Entries(d), i, at);
  }

  lemma EntryIn(img: seq<byte>, header: seq<byte>, parts: seq<seq<byte>>, i: nat, at: int)
    requires |header| == 64 && |parts| == 63 && (forall k :: 0 <= k < 63 ==> |parts[k]| == 64) && i < 63 && at == 64 + 64 * i
    requires 4096 <= |img| && img[0..4096] == header + Flat(parts)
    ensures img[at..at + 64] == parts[i]
  {
    FlatSize(parts, 64);
    FlatPart(parts, 64, i, 64 * i);
    BehindHeader(img, header, Flat(parts), at, parts[i]);
  }

  lemma BehindHeader(img: seq<byte>, header: seq<byte>, rest: seq<byte>, at: int, part: seq<byte>)
    requires |header| == |part| == 64 && |rest| == 4032 && 4096 <= |img| && img[0..4096] == header + rest
    requires 64 <= at <= 4032 && rest[at - 64..at] == part
    ensures img[at..at + 64] == part
  {
    PartOfPart(img, 0, header + rest, at, 64);
    PartOfPart(header + rest, 64, rest, at - 64, 64);
  }

  /** Number `m` of index block `i`: 0 is the length, the others name the data blocks. */
  lemma NumberAt(d: Disk, i: nat, m: nat)
    requires d.Valid() && i < |d.inodes| && m < 1024
    ensures d.Placed(d.inodes[i]) && 4096 * (i + 2) <= |Image(d)|
    ensures Int32At(Image(d), 4096 * (i + 1) + 4 * m) == InodeNumbers(d.inodes[i])[m]
  {
    IndexBlockAt(d, i);
    NumberRead(Image(d), 4096 * (i + 1), InodeNumbers(d.inodes[i]), m);
  }

  lemma IndexBlockAt(d: Disk, i: nat)
    requires d.Valid() && i < |d.inodes|
    ensures d.Placed(d.inodes[i]) && Numbered(d.inodes[i]) && 4096 * (i + 2) <= |Image(d)|
    ensures Image(d)[4096 * (i + 1)..4096 * (i + 1) + 4096] == Flat(Words(InodeNumbers(d.inodes[i])))
  {
    assert d.Placed(d.inodes[i]);
    BlockAt(d, i + 1);
  }

  lemma NumberRead(img: seq<byte>, at: int, ns: seq<nat>, m: nat)
    requires |ns| == 1024 && (forall k :: 0 <= k < 1024 ==> ns[k] < SIGN) && m < 1024
    requires 0 <= at && at + 4096 <= |img| && img[at..at + 4096] == Flat(Words(ns))
    ensures Int32At(img, at + 4 * m) == ns[m]
  {
    FlatPart(Words(ns), 4, m, 4 * m);
    FlatSize(Words(ns), 4);
    PartOfPart(img, at, Flat(Words(ns)), 4 * m, 4);
    WordRead(img, at + 4 * m, ns[m]);
  }

  lemma DataAt(d: Disk, b: nat)
    requires d.Valid() && b < |d.data|
    ensures var at := 4096 * (1 + |d.inodes| + b); at + 4096 <= |Image(d)| && Image(d)[at..at + 4096] == d.data[b]
  {
    BlockAt(d, 1 + |d.inodes| + b);
  }

  // ----- Directory and index blocks -----

  lemma CountsRead(d: Disk)
    requires d.Valid()
    ensures 4096 <= |Image(d)| && DirCount(Image(d)) == |d.entries| && InodeCount(Image(d)) == |d.inodes|
  {
    HeaderAt(d);
    PartOfPart(Image(d), 0, Header(d), 0, 4);
    PartOfPart(Image(d), 0, Header(d), 4, 4);
    WordRead(Image(d), 0, |d.entries|);
    WordRead(Image(d), 4, |d.inodes|);
  }

  lemma InodeRead(d: Disk, i: nat)
    requires d.Valid() && i < |d.inodes|
    ensures 4096 * (i + 2) <= |Image(d)| && d.Placed(d.inodes[i]) && FileLength(Image(d), i) == d.inodes[i].length
    ensures forall k :: 0 <= k < |d.inodes[i].blocks| ==> BlockNumber(Image(d), i, k) == d.inodes[i].blocks[k]
  {
    NumberAt(d, i, 0);
    forall k | 0 <= k < |d.inodes[i].blocks|
      ensures BlockNumber(Image(d), i, k) == d.inodes[i].blocks[k]
    {
      NumberAt(d, i, k + 1);
    }
  }

  lemma EntryRead(d: Disk, i: nat, e: DirEntry)
    requires d.Valid() && i < |d.entries| && e == d.entries[i]
    ensures 4096 <= |Image(d)| && Name(Image(d), i) == e.name && TypeOf(Image(d), i) == e.kind && InodeOf(Image(d), i) == e.inode
  {
    assert d.Storable(e);
    EntryAtPlace(d, i, 64 + 64 * i);
    FieldsRead(Image(d), i, e, 64 + 64 * i);
  }

  lemma FieldsRead(img: seq<byte>, i: nat, e: DirEntry, at: int)
    requires 4096 <= |img| && i < 63 && at == 64 + 64 * i && |e.name| <= 32 && NulFree(e.name) && e.kind < SIGN && e.inode < SIGN
    requires img[at..at + 64] == EntryBytes(e)
    ensures Name(img, i) == e.name && TypeOf(img, i) == e.kind && InodeOf(img, i) == e.inode
  {
    EntryFields(e);
    PartOfPart(img, at, EntryBytes(e), 0, 32);
    PartOfPart(img, at, EntryBytes(e), 32, 4);
    PartOfPart(img, at, EntryBytes(e), 36, 4);
    WordRead(img, at + 32, e.kind);
    WordRead(img, at + 36, e.inode);
    PaddedName(e, Raw(img, i));
  }

  lemma EntryFields(e: DirEntry)
    requires |e.name| <= 32 && e.kind < SIGN && e.inode < SIGN
    ensures var s := EntryBytes(e); s[0..32] == e.name + Zeros(32 - |e.name|) && s[32..36] == Word(e.kind) && s[36..40] == Word(e.inode)
  {
  }

  lemma PaddedName(e: DirEntry, raw: seq<byte>)
    requires |e.name| <= 32 && NulFree(e.name) && raw == e.name + Zeros(32 - |e.name|)
    ensures Cut(raw) == e.name
  {
    CutIs(raw, |e.name|);
  }

  lemma UnusedRead(d: Disk, i: nat)
    requires d.Valid() && |d.entries| <= i < 63
    ensures 4096 <= |Image(d)| && Name(Image(d), i) == [] && TypeOf(Image(d), i) == 0
  {
    EntryAtPlace(d, i, 64 + 64 * i);
    EmptyFields(Image(d), i, 64 + 64 * i);
  }

  lemma EmptyFields(img: seq<byte>, i: nat, at: int)
    requires 4096 <= |img| && i < 63 && at == 64 + 64 * i && img[at..at + 64] == Zeros(64)
    ensures Name(img, i) == [] && TypeOf(img, i) == 0
  {
    PartOfPart(img, at, Zeros(64), 0, 32);
    PartOfPart(img, at, Zeros(64), 32, 4);
    assert Zeros(64)[32..36] == Word(0);
    WordRead(img, at + 32, 0);
    assert Raw(img, i) == Zeros(64)[0..32];
    CutIs(Raw(img, i), 0);
  }

  // ----- A well-formed image -----

  lemma InodeGood(d: Disk, i: nat)
    requires d.Valid() && i < |d.inodes|
    ensures 4096 <= |Image(d)| && 4096 * (i + 2) <= |Image(d)| && GoodInode(Image(d), i)
  {
    BlockSizes(d);
    CountsRead(d);
    InodeRead(d, i);
    var f := d.inodes[i];
    forall k | 0 <= k < BlocksFor(f.length)
      ensures BlockInside(Image(d), i, k)
    {
      assert f.blocks[k] < |d.data| && BlockNumber(Image(d), i, k) == f.blocks[k];
    }
  }

  lemma ImageWellFormed(d: Disk)
    requires d.Valid()
    ensures WellFormed(Image(d))
  {
    BlockSizes(d);
    CountsRead(d);
    forall i | 0 <= i < InodeCount(Image(d))
      ensures GoodInode(Image(d), i)
    {
      InodeGood(d, i);
    }
  }

  lemma ImageFilesNamed(d: Disk)
    requires d.Valid()
    ensures FilesNamed(Image(d))
  {
    ImageWellFormed(d);
    CountsRead(d);
    forall i | 0 <= i < ENTRIES && TypeOf(Image(d), i) == FILE_TYPE
      ensures IsInode(Image(d), InodeOf(Image(d), i))
    {
      if i < |d.entries| {
        EntryRead(d, i, d.entries[i]);
        assert d.Storable(d.entries[i]);
      } else {
        UnusedRead(d, i);
      }
    }
  }

  // ----- Contents -----

  lemma StoredInode(d: Disk, i: nat)
    requires d.Valid() && i < |d.inodes|
    ensures IsInode(Image(d), i) && Size(Image(d), i) == d.inodes[i].length && AllGood(Image(d), i)
    ensures BlocksFor(d.inodes[i].length) <= |d.inodes[i].blocks|
  {
    ImageWellFormed(d);
    CountsRead(d);
    InodeRead(d, i);
  }

  lemma StoredBlock(d: Disk, i: nat, b: nat, j: nat, k: nat)
    requires d.Valid() && i < |d.inodes| && b < BlocksFor(d.inodes[i].length) && b == k / 4096 && j == k % 4096
    ensures IsInode(Image(d), i) && Size(Image(d), i) == d.inodes[i].length && GoodBlock(Image(d), i, b) && b < |d.Blocks(i)|
    ensures k < 4096 * BlocksFor(d.inodes[i].length)
    ensures FlatAt(Image(d), i, k) == d.Blocks(i)[b][j]
  {
    StoredInode(d, i);
    CountsRead(d);
    InodeRead(d, i);
    DataAt(d, d.inodes[i].blocks[b]);
    ByteOfData(Image(d), i, b, j, k, d.inodes[i].blocks[b], |d.inodes|, d.data[d.inodes[i].blocks[b]]);
  }

  lemma ByteOfData(img: seq<byte>, inode: int, b: nat, j: nat, k: nat, n: nat, count: nat, block: seq<byte>)
    requires IsInode(img, inode) && InodeCount(img) == count && b < BlocksFor(Size(img, inode)) && b == k / 4096 && j == k % 4096
    requires BlockNumber(img, inode, b) == n <= LAST_BLOCK && |block| == 4096
    requires var at := 4096 * (1 + count + n); at + 4096 <= |img| && img[at..at + 4096] == block
    ensures k < 4096 * BlocksFor(Size(img, inode)) && FlatAt(img, inode, k) == block[j]
  {
    var at := 4096 * (1 + count + n);
    assert img[at..at + 4096][j] == img[at + j];
  }

  lemma BlocksByte(parts: seq<seq<byte>>, b: nat, j: nat)
    requires (forall k :: 0 <= k < |parts| ==> |parts[k]| == 4096) && b < |parts| && j < 4096
    ensures 4096 * b + j < |Flat(parts)| && Flat(parts)[4096 * b + j] == parts[b][j]
  {
    FlatPart(parts, 4096, b, 4096 * b);
    assert Flat(parts)[4096 * b..4096 * b + 4096][j] == parts[b][j];
  }

  /** Byte `k` of a file, its last block's rest included, is where reading looks for it. */
  lemma StoredByte(d: Disk, i: nat, k: nat)
    requires d.Valid() && i < |d.inodes| && k < 4096 * BlocksFor(d.inodes[i].length)
    ensures IsInode(Image(d), i) && Size(Image(d), i) == d.inodes[i].length && GoodBlock(Image(d), i, k / 4096)
    ensures k < |Flat(d.Blocks(i))| && FlatAt(Image(d), i, k) == Flat(d.Blocks(i))[k]
  {
    StoredBlock(d, i, k / 4096, k % 4096, k);
    assert d.Placed(d.inodes[i]);
    BlocksByte(d.Blocks(i), k / 4096, k % 4096);
    assert k == 4096 * (k / 4096) + k % 4096;
  }

  /** The whole file is read back. */
  lemma ContentsRead(d: Disk, i: nat)
    requires d.Valid() && i < |d.inodes|
    ensures IsInode(Image(d), i) && AllGood(Image(d), i) && Content(Image(d), i) == Contents(d, i)
    ensures |Contents(d, i)| == d.inodes[i].length
  {
    StoredInode(d, i);
    assert d.Placed(d.inodes[i]);
    FlatSize(d.Blocks(i), 4096);
    forall k | 0 <= k < d.inodes[i].length
      ensures Content(Image(d), i)[k] == Contents(d, i)[k]
    {
      StoredByte(d, i, k);
    }
  }

  /** The part of a text from `offset` on, at most `length` bytes. */
  function Slice(text: seq<byte>, offset: int, length: int): (s: seq<byte>)
    requires 0 <= offset && 0 <= length
    ensures |s| <= length
  {
    if offset >= |text| then [] else if offset + length < |text| then text[offset..offset + length] else text[offset..]
  }

  lemma FromFileStored(d: Disk, i: nat, k: int, b: byte)
    requires d.Valid() && i < |d.inodes| && IsInode(Image(d), i) && FromFile(Image(d), i, k, b) && k < d.inodes[i].length
    ensures k < |Contents(d, i)| && b == Contents(d, i)[k]
  {
    ContentsRead(d, i);
    StoredByte(d, i, k);
  }

  /** Bytes copied from the blocks of a stored file are its contents. */
  lemma CopiedContents(d: Disk, i: nat, skip: int, before: seq<byte>, now: seq<byte>, n: int)
    requires d.Valid() && i < |d.inodes| && IsInode(Image(d), i) && Copied(Image(d), i, skip, before, now, n)
    requires n > 0 ==> 0 <= skip && skip + n <= d.inodes[i].length
    ensures 0 <= n <= |now| == |before| && now[n..] == before[n..]
    ensures n > 0 ==> skip + n <= |Contents(d, i)| && now[..n] == Contents(d, i)[skip..skip + n]
  {
    if n > 0 {
      ContentsRead(d, i);
      forall k | 0 <= k < n
        ensures now[k] == Contents(d, i)[skip + k]
      {
        FromFileStored(d, i, skip + k, now[k]);
      }
      SameBytes(now, n, Contents(d, i), skip);
    }
  }

  lemma SameBytes(now: seq<byte>, n: nat, text: seq<byte>, skip: nat)
    requires n <= |now| && skip + n <= |text| && forall k :: 0 <= k < n ==> now[k] == text[skip + k]
    ensures now[..n] == text[skip..skip + n]
  {
  }

  lemma OutcomeStored(d: Disk, i: nat, p: Plan, before: seq<byte>, now: seq<byte>, r: int, offset: int, length: int)
    requires d.Valid() && i < |d.inodes| && IsInode(Image(d), i) && 0 <= p.blocks <= BlocksFor(d.inodes[i].length) <= 1023
    requires 0 <= offset && 0 <= length && Outcome(Image(d), i, p, before, now, r)
    requires SameRead(p, Intended(d.inodes[i].length, offset, length))
    ensures var part := Slice(Contents(d, i), offset, length);
            r == |part| <= |now| == |before| && now[..r] == part && now[r..] == before[r..]
  {
    ContentsRead(d, i);
    NoneBad(Image(d), i, p.blocks);
    CopiedContents(d, i, p.skip, before, now, p.count);
    SliceIs(Contents(d, i), p, before, now, offset, length);
  }

  lemma NoneBad(img: seq<byte>, inode: int, n: nat)
    requires IsInode(img, inode) && AllGood(img, inode) && n <= BlocksFor(Size(img, inode))
    ensures FirstBad(img, inode, 0, n) == n
  {
  }

  lemma SliceIs(text: seq<byte>, p: Plan, before: seq<byte>, now: seq<byte>, offset: int, length: int)
    requires 0 <= offset && 0 <= length && SameRead(p, Intended(|text|, offset, length))
    requires 0 <= p.count <= |now| == |before| && now[p.count..] == before[p.count..]
    requires p.count > 0 ==> p.skip + p.count <= |text| && now[..p.count] == text[p.skip..p.skip + p.count]
    ensures p.count == |Slice(text, offset, length)| && now[..p.count] == Slice(text, offset, length)
  {
  }

  /**
   `read_data` on a stored file returns the part asked for, for every offset and length at
   which 32-bit arithmetic does what is meant.
   */
  method ReadStored(d: Disk, i: nat, offset: int, buf: array<byte>, length: int) returns (r: int)
    requires d.Valid() && i < |d.inodes| && 0 <= offset < WRAP && 0 <= length < WRAP && length <= buf.Length
    requires NoWrapDamage(d.inodes[i].length, offset, length)
    modifies buf
    ensures var part := Slice(Contents(d, i), offset, length);
            r == |part| <= buf.Length && buf[..r] == part && buf[r..] == old(buf[r..])
  {
    StoredInode(d, i);
    CountsRead(d);
    PlanCorrect(d.inodes[i].length, offset, length);
    ghost var before := buf[..];
    r := ReadData(Image(d), i, offset, buf, length);
    OutcomeStored(d, i, PlanOf(d.inodes[i].length, offset, length), before, buf[..], r, offset, length);
  }

  // ----- Names -----

  /** Entry `i` is the first of its name. */
  predicate FirstNamed(d: Disk, i: nat) {
    i < |d.entries| && forall j :: 0 <= j < i ==> d.entries[j].name != d.entries[i].name
  }

  lemma NamesRead(d: Disk, i: nat)
    requires d.Valid() && i < 63
    ensures 4096 <= |Image(d)| && Name(Image(d), i) == if i < |d.entries| then d.entries[i].name else []
  {
    if i < |d.entries| {
      EntryRead(d, i, d.entries[i]);
    } else {
      UnusedRead(d, i);
    }
  }

  /** The name at entry `i`; an unused entry has none. */
  function NameAt(d: Disk, i: int): seq<byte> { if 0 <= i < |d.entries| then d.entries[i].name else [] }

  lemma AllNamesRead(d: Disk)
    requires d.Valid()
    ensures 4096 <= |Image(d)| && forall i :: 0 <= i < ENTRIES ==> Name(Image(d), i) == NameAt(d, i)
  {
    HeaderAt(d);
    forall i | 0 <= i < ENTRIES
      ensures Name(Image(d), i) == NameAt(d, i)
    {
      NamesRead(d, i);
    }
  }

  /** A stored name is found at its first entry. */
  lemma NameFound(d: Disk, i: nat, name: seq<byte>)
    requires d.Valid() && FirstNamed(d, i) && name == d.entries[i].name
    ensures 4096 <= |Image(d)| && 1 <= |name| <= 32 && NulFree(name) && Find(Image(d), name, 0) == i
  {
    AllNamesRead(d);
    assert d.Storable(d.entries[i]);
    FoundFirst(Image(d), d, i, name);
  }

  lemma FoundFirst(img: seq<byte>, d: Disk, i: nat, name: seq<byte>)
    requires 4096 <= |img| && FirstNamed(d, i) && name == d.entries[i].name && i < ENTRIES
    requires forall i :: 0 <= i < ENTRIES ==> Name(img, i) == NameAt(d, i)
    ensures Find(img, name, 0) == i
  {
    assert Name(img, i) == name;
  }

  /** No other name but the empty one is found. */
  lemma NameMissing(d: Disk, name: seq<byte>)
    requires d.Valid() && name != [] && forall i :: 0 <= i < |d.entries| ==> d.entries[i].name != name
    ensures 4096 <= |Image(d)| && forall i :: 0 <= i < ENTRIES ==> Name(Image(d), i) != name
  {
    AllNamesRead(d);
  }

  /** Both lookups find every stored name, with the type and the inode number it was stored with. */
  method LookUpStored(d: Disk, i: nat) returns (kind: int, r: int, dentry: Dentry)
    requires d.Valid() && FirstNamed(d, i)
    ensures kind == dentry.filetype == d.entries[i].kind && r == 0 && dentry.inode == d.entries[i].inode
  {
    NameFound(d, i, d.entries[i].name);
    EntryRead(d, i, d.entries[i]);
    kind := GetFiletype(Image(d), d.entries[i].name);
    r, dentry := ReadDentryByName(Image(d), d.entries[i].name);
  }

  /** Neither finds a name that is not stored. */
  method LookUpMissing(d: Disk, name: seq<byte>) returns (kind: int, r: int)
    requires d.Valid() && NulFree(name) && name != [] && forall i :: 0 <= i < |d.entries| ==> d.entries[i].name != name
    ensures kind == -1 && r == -1
  {
    NameMissing(d, name);
    kind := GetFiletype(Image(d), name);
    var dentry;
    r, dentry := ReadDentryByName(Image(d), name);
  }
}
