/**
 The file system image as raw bytes, and `read_data` over it: two-level block indexing with
 32-bit arithmetic, against the flat contents of a file.
 */
module FileImage {
  import opened Bytes

  const LAST_BLOCK := 1022
  const WRAP: int := 0x1_0000_0000
  const SIGN: int := 0x8000_0000

  // ----- Layout -----

  function Signed(w: int): int { if w < SIGN then w else w - WRAP }

  /** The value of one 32-bit unsigned addition or subtraction. */
  function Unsigned(n: int): (w: int)
    requires -WRAP <= n < 2 * WRAP
    ensures 0 <= w < WRAP
  {
    if n < 0 then n + WRAP else if n < WRAP then n else n - WRAP
  }

  /** The little-endian word at `a`, as a signed 32-bit integer. */
  function Int32At(img: seq<byte>, a: int): (n: int)
    requires 0 <= a && a + 4 <= |img|
    ensures -SIGN <= n < SIGN
  {
    Signed(img[a] as int + 0x100 * img[a + 1] as int + 0x1_0000 * img[a + 2] as int + 0x100_0000 * img[a + 3] as int)
  }

  function DirCount(img: seq<byte>): int
    requires 4096 <= |img|
  {
    Int32At(img, 0)
  }

  function InodeCount(img: seq<byte>): int
    requires 4096 <= |img|
  {
    Int32At(img, 4)
  }

  function FileLength(img: seq<byte>, inode: int): int
    requires 0 <= inode && 4096 * (inode + 2) <= |img|
  {
    Int32At(img, 4096 * (inode + 1))
  }

  function BlockNumber(img: seq<byte>, inode: int, k: int): int
    requires 0 <= inode && 4096 * (inode + 2) <= |img| && 0 <= k < 1023
  {
    Int32At(img, 4096 * (inode + 1) + 4 + 4 * k)
  }

  function BlocksFor(n: int): int { if n % 4096 == 0 then n / 4096 else n / 4096 + 1 }

  predicate GoodBlock(img: seq<byte>, inode: int, k: int)
    requires 0 <= inode && 4096 * (inode + 2) <= |img| && 0 <= k < 1023
  {
    0 <= BlockNumber(img, inode, k) <= LAST_BLOCK
  }

  /** The block number names a data block that lies inside the image, or is recognisably bad. */
  predicate BlockInside(img: seq<byte>, inode: int, k: int)
    requires 4096 <= |img| && 0 <= inode && 4096 * (inode + 2) <= |img| && 0 <= k < 1023
  {
    GoodBlock(img, inode, k) ==> 4096 * (InodeCount(img) + BlockNumber(img, inode, k) + 2) <= |img|
  }

  predicate GoodInode(img: seq<byte>, inode: int)
    requires 4096 <= |img| && 0 <= inode && 4096 * (inode + 2) <= |img|
  {
    && 0 <= FileLength(img, inode) <= 1023 * 4096
    && (forall k :: 0 <= k < BlocksFor(FileLength(img, inode)) ==> BlockInside(img, inode, k))
  }

  predicate WellFormed(img: seq<byte>) {
    && 4096 <= |img| && 0 <= DirCount(img) <= 63
    && 0 <= InodeCount(img) && 4096 * (InodeCount(img) + 1) <= |img|
    && (forall i :: 0 <= i < InodeCount(img) ==> GoodInode(img, i))
  }

  predicate IsInode(img: seq<byte>, inode: int) {
    WellFormed(img) && 0 <= inode < InodeCount(img)
  }

  function Size(img: seq<byte>, inode: int): (n: int)
    requires IsInode(img, inode)
    ensures 0 <= n <= 1023 * 4096 && 0 <= BlocksFor(n) <= 1023
  {
    assert GoodInode(img, inode);
    FileLength(img, inode)
  }

  /** Byte `k` of the blocks of a file laid end to end. */
  function FlatAt(img: seq<byte>, inode: int, k: int): byte
    requires IsInode(img, inode) && 0 <= k < 4096 * BlocksFor(Size(img, inode))
    requires GoodBlock(img, inode, k / 4096)
  {
    assert GoodInode(img, inode) && k / 4096 < BlocksFor(FileLength(img, inode));
    assert BlockInside(img, inode, k / 4096);
    img[4096 * (InodeCount(img) + 1 + BlockNumber(img, inode, k / 4096)) + k % 4096]
  }

  /** The first `n` blocks all have a number in range. */
  predicate BlocksGood(img: seq<byte>, inode: int, n: int)
    requires IsInode(img, inode) && n <= 1023
  {
    forall k :: 0 <= k < n ==> GoodBlock(img, inode, k)
  }

  /** The first of the blocks `i` to `n` whose number is out of range, or `n`. */
  function FirstBad(img: seq<byte>, inode: int, i: nat, n: nat): (k: nat)
    requires IsInode(img, inode) && i <= n <= 1023
    ensures i <= k <= n && (k < n ==> !GoodBlock(img, inode, k))
    ensures forall j :: i <= j < k ==> GoodBlock(img, inode, j)
    decreases n - i
  {
    if i == n || !GoodBlock(img, inode, i) then i else FirstBad(img, inode, i + 1, n)
  }

  // ----- What read_data computes -----

  /** How many blocks are walked, how many bytes of them are skipped, and how many are then copied. */
  datatype Plan = Plan(blocks: int, skip: int, count: int)

  /** The three numbers as the 32-bit arithmetic of the code yields them. */
  function PlanOf(fileLength: int, offset: int, length: int): (p: Plan)
    requires 0 <= fileLength <= 1023 * 4096 && 0 <= offset < WRAP && 0 <= length < WRAP
    ensures 0 <= p.blocks <= BlocksFor(fileLength) <= 1023
    ensures 0 <= p.count && (0 < p.count ==> 0 <= p.skip && p.skip + p.count <= 4096 * p.blocks)
  {
    var past := Unsigned(offset + length) > fileLength;
    var left := if past then Signed(Unsigned(fileLength - offset)) else Signed(length);
    assert Unsigned(left + offset) == if past then fileLength else Unsigned(offset + length);
    var blocks := BlocksFor(Unsigned(left + offset));
    var skip := if Signed(offset) < 0 then 0 else Signed(offset);
    var room := 4096 * blocks - skip;
    Plan(blocks, skip, if left <= 0 || room <= 0 then 0 else if left <= room then left else room)
  }

  /** What the call is meant to do: the part of the file from `offset`, at most `length` bytes. */
  function Intended(fileLength: int, offset: int, length: int): Plan
    requires 0 <= fileLength && 0 <= offset && 0 <= length
  {
    var end := if offset + length < fileLength then offset + length else fileLength;
    Plan(BlocksFor(end), offset, if offset < end then end - offset else 0)
  }

  /** Same blocks looked at and same bytes copied. */
  predicate SameRead(p: Plan, q: Plan) {
    p.blocks == q.blocks && p.count == q.count && (p.count == 0 || p.skip == q.skip)
  }

  /** Neither `offset` nor `offset + length` is so large that 32-bit arithmetic changes the outcome. */
  predicate NoWrapDamage(fileLength: int, offset: int, length: int) {
    var sum := offset + length;
    if sum < WRAP then sum <= fileLength || offset <= fileLength + SIGN || fileLength == 0
    else if sum - WRAP > fileLength then offset <= fileLength + SIGN || fileLength == 0
    else
      && BlocksFor(sum - WRAP) == BlocksFor(fileLength)
      && (offset == fileLength || (offset > fileLength && (length >= SIGN || sum == WRAP)))
  }

  /** `read_data` reads what it is meant to exactly when no 32-bit wrap-around gets in the way. */
  lemma PlanCorrect(fileLength: int, offset: int, length: int)
    requires 0 <= fileLength <= 1023 * 4096 && 0 <= offset < WRAP && 0 <= length < WRAP
    ensures SameRead(PlanOf(fileLength, offset, length), Intended(fileLength, offset, length))
            <==> NoWrapDamage(fileLength, offset, length)
  {
  }

  /** Asked for 100 bytes at 50 below 2^32, it copies the first 100 bytes of a file where nothing was meant to be read. */
  lemma PlanWraps()
    ensures PlanOf(4096, 0xFFFF_FFCE, 100) == Plan(1, 0, 100)
    ensures Intended(4096, 0xFFFF_FFCE, 100).count == 0
    ensures !NoWrapDamage(4096, 0xFFFF_FFCE, 100)
  {
    PlanCorrect(4096, 0xFFFF_FFCE, 100);
  }

  // ----- The code -----

  /** Byte `k` of the flat file is `b`. */
  ghost predicate FromFile(img: seq<byte>, inode: int, k: int, b: byte)
    requires IsInode(img, inode)
  {
    0 <= k < 4096 * BlocksFor(Size(img, inode)) && GoodBlock(img, inode, k / 4096) && b == FlatAt(img, inode, k)
  }

  /** The first `copied` bytes of `now` come from the file at `skip`, all others are as `before`. */
  ghost predicate Copied(img: seq<byte>, inode: int, skip: int, before: seq<byte>, now: seq<byte>, copied: int)
    requires IsInode(img, inode)
  {
    && |now| == |before| && 0 <= copied <= |now|
    && (forall k :: copied <= k < |now| ==> now[k] == before[k])
    && (forall k :: 0 <= k < copied ==> FromFile(img, inode, skip + k, now[k]))
  }

  /** How far copying has come when `walked` bytes of the blocks have been passed. */
  function Done(p: Plan, walked: int): int {
    if walked <= p.skip then 0 else if walked - p.skip < p.count then walked - p.skip else p.count
  }

  function Positive(n: int): int { if n < 0 then 0 else n }

  lemma ByteOfBlock(img: seq<byte>, inode: int, i: int, j: int)
    requires IsInode(img, inode) && 0 <= i < BlocksFor(Size(img, inode)) && GoodBlock(img, inode, i) && 0 <= j < 4096
    ensures var at := 4096 * (InodeCount(img) + 1) + 4096 * BlockNumber(img, inode, i) + j;
            0 <= at < |img| && FromFile(img, inode, 4096 * i + j, img[at])
  {
    assert GoodInode(img, inode);
    assert BlockInside(img, inode, i);
    assert (4096 * i + j) / 4096 == i && (4096 * i + j) % 4096 == j;
  }

  /** Where the walk over the blocks stands after `walked` bytes, `wanted` of which were asked for. */
  predicate Walk(p: Plan, wanted: int, walked: int, dataLeft: int, dataRead: int, offsetLeft: int) {
    && p.skip >= 0
    && p.count == (if wanted <= 0 || 4096 * p.blocks <= p.skip then 0
                   else if wanted <= 4096 * p.blocks - p.skip then wanted else 4096 * p.blocks - p.skip)
    && dataRead == Done(p, walked) && dataLeft == wanted - dataRead
    && (wanted > 0 ==> Positive(offsetLeft) == Positive(p.skip - walked))
  }

  lemma WalkSkipped(p: Plan, wanted: int, walked: int, dataLeft: int, dataRead: int, offsetLeft: int)
    requires Walk(p, wanted, walked, dataLeft, dataRead, offsetLeft) && 0 <= walked < 4096 * p.blocks
    requires dataLeft > 0 && offsetLeft > 0
    ensures Walk(p, wanted, walked + 1, dataLeft, dataRead, offsetLeft - 1)
  {
  }

  lemma WalkCopied(p: Plan, wanted: int, walked: int, dataLeft: int, dataRead: int, offsetLeft: int)
    requires Walk(p, wanted, walked, dataLeft, dataRead, offsetLeft) && 0 <= walked < 4096 * p.blocks
    requires dataLeft > 0 && offsetLeft <= 0
    ensures p.skip + dataRead == walked && dataRead < p.count
    ensures Walk(p, wanted, walked + 1, dataLeft - 1, dataRead + 1, offsetLeft)
  {
  }

  lemma CopyOne(img: seq<byte>, inode: int, skip: int, before: seq<byte>, now: seq<byte>, n: int, b: byte)
    requires IsInode(img, inode) && Copied(img, inode, skip, before, now, n) && n < |now|
    requires FromFile(img, inode, skip + n, b)
    ensures Copied(img, inode, skip, before, now[n := b], n + 1)
  {
  }

  /** Copies byte `j` of block `i`, which lies at `at`. */
  method CopyByte(img: seq<byte>, inode: int, i: int, j: int, at: int, buf: array<byte>, dataRead: int,
                  ghost skip: int, ghost before: seq<byte>)
    requires IsInode(img, inode) && 0 <= i < BlocksFor(Size(img, inode)) && GoodBlock(img, inode, i) && 0 <= j < 4096
    requires at == 4096 * (InodeCount(img) + 1) + 4096 * BlockNumber(img, inode, i) + j
    requires Copied(img, inode, skip, before, buf[..], dataRead) && dataRead < buf.Length && skip + dataRead == 4096 * i + j
    modifies buf
    ensures Copied(img, inode, skip, before, buf[..], dataRead + 1)
  {
    ByteOfBlock(img, inode, i, j);
    CopyOne(img, inode, skip, before, buf[..], dataRead, img[at]);
    buf[dataRead] := img[at];
  }

  /** The inner loop: one block, byte by byte, skipping while there is something to skip. */
  method CopyBlock(img: seq<byte>, inode: int, i: int, buf: array<byte>, dataLeft0: int, dataRead0: int, offsetLeft0: int,
                   ghost p: Plan, ghost wanted: int, ghost before: seq<byte>)
    returns (dataLeft: int, dataRead: int, offsetLeft: int)
    requires IsInode(img, inode) && 0 <= i < p.blocks <= BlocksFor(Size(img, inode)) && GoodBlock(img, inode, i)
    requires Walk(p, wanted, 4096 * i, dataLeft0, dataRead0, offsetLeft0) && p.count <= buf.Length
    requires Copied(img, inode, p.skip, before, buf[..], dataRead0)
    modifies buf
    ensures Walk(p, wanted, 4096 * (i + 1), dataLeft, dataRead, offsetLeft)
    ensures Copied(img, inode, p.skip, before, buf[..], dataRead)
  {
    dataLeft, dataRead, offsetLeft := dataLeft0, dataRead0, offsetLeft0;
    var at := 4096 * (InodeCount(img) + 1) + 4096 * BlockNumber(img, inode, i);
    var j := 0;
    while j < 4096 && dataLeft > 0
      invariant 0 <= j <= 4096 && Walk(p, wanted, 4096 * i + j, dataLeft, dataRead, offsetLeft)
      invariant Copied(img, inode, p.skip, before, buf[..], dataRead)
    {
      if offsetLeft > 0 {
        WalkSkipped(p, wanted, 4096 * i + j, dataLeft, dataRead, offsetLeft);
        offsetLeft := offsetLeft - 1;
      } else {
        WalkCopied(p, wanted, 4096 * i + j, dataLeft, dataRead, offsetLeft);
        CopyByte(img, inode, i, j, at + j, buf, dataRead, p.skip, before);
        dataLeft := dataLeft - 1;
        dataRead := dataRead + 1;
      }
      j := j + 1;
    }
  }

  /** What a walk leaves behind: all the bytes, or -1 and those before the first bad block. */
  ghost predicate Outcome(img: seq<byte>, inode: int, p: Plan, before: seq<byte>, now: seq<byte>, r: int)
    requires IsInode(img, inode) && 0 <= p.blocks <= 1023
  {
    var bad := FirstBad(img, inode, 0, p.blocks);
    && r == (if bad < p.blocks then -1 else p.count)
    && Copied(img, inode, p.skip, before, now, if bad < p.blocks then Done(p, 4096 * bad) else p.count)
  }

  /** The outer loop: block after block, checking every block number. */
  method WalkBlocks(img: seq<byte>, inode: int, buf: array<byte>, numBlocks: int, left: int, skip: int, ghost p: Plan)
    returns (r: int)
    requires IsInode(img, inode) && 0 <= numBlocks == p.blocks <= BlocksFor(Size(img, inode)) && 0 <= p.count <= buf.Length
    requires Walk(p, left, 0, left, 0, skip)
    modifies buf
    ensures Outcome(img, inode, p, old(buf[..]), buf[..], r)
  {
    ghost var before := buf[..];
    var dataLeft, dataRead, offsetLeft := left, 0, skip;
    var i := 0;
    while i < numBlocks
      invariant 0 <= i <= numBlocks && BlocksGood(img, inode, i)
      invariant Walk(p, left, 4096 * i, dataLeft, dataRead, offsetLeft)
      invariant Copied(img, inode, p.skip, before, buf[..], dataRead)
    {
      var block := BlockNumber(img, inode, i);
      if block < 0 || block > LAST_BLOCK {
        assert !GoodBlock(img, inode, i);
        return -1;
      }
      if offsetLeft > 4096 {
        offsetLeft := offsetLeft - 4096;
      } else {
        dataLeft, dataRead, offsetLeft := CopyBlock(img, inode, i, buf, dataLeft, dataRead, offsetLeft, p, left, before);
      }
      i := i + 1;
    }
    return dataRead;
  }

  /**
   Copies into `buf` from position `offset` of a file, at most `length` bytes; -1 if a block
   number on the way, even a skipped one, is out of range.
   */
  method ReadData(img: seq<byte>, inode: int, offset: int, buf: array<byte>, length: int) returns (r: int)
    requires WellFormed(img) && 0 <= inode && inode != InodeCount(img)
    requires 0 <= offset < WRAP && 0 <= length < WRAP
    requires IsInode(img, inode) ==> PlanOf(Size(img, inode), offset, length).count <= buf.Length
    modifies buf
    ensures !IsInode(img, inode) ==> r == -1 && buf[..] == old(buf[..])
    ensures IsInode(img, inode) ==>
              Outcome(img, inode, PlanOf(Size(img, inode), offset, length), old(buf[..]), buf[..], r)
  {
    if inode > InodeCount(img) { return -1; }
    var size := FileLength(img, inode);
    var dataLeft := Signed(length);
    var offsetLeft := Signed(offset);
    assert size == Size(img, inode);
    if Unsigned(offset + length) > size {
      dataLeft := Signed(Unsigned(size - offset));
    }
    var numBlocks := BlocksFor(Unsigned(dataLeft + offset));
    r := WalkBlocks(img, inode, buf, numBlocks, dataLeft, offsetLeft, PlanOf(size, offset, length));
  }
}
