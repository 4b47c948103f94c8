/**
 The page directory and the one page table, and the two-level translation the processor
 makes with them (Intel SDM volume 3A, section 4.3).  Entries are 32-bit words written as
 integers: an address whose low twelve bits are clear, plus flag bits.  C's `|` of such an
 address and flags below 0x1000 is therefore `+`.
 */
module Paging {
  import opened Bytes

  const PRESENT_RW := 0x3
  const RW_ONLY := 0x2
  const USER_RW := 0x7
  const KERNEL_4MB := 0x83
  const USER_4MB := 0x87

  const VIDEO := 0xB8000
  const PROGRAM_PAGE := 0x8000000
  const VIDMAP_PAGE := 0x8800000

  datatype Option<T> = None | Some(value: T)

  /** `tableAt` is where the page table lies: page aligned, inside the kernel's own 4 MB. */
  datatype Pages = Pages(dir: seq<int>, table: seq<int>, tableAt: int) {
    predicate Shaped() {
      |dir| == 1024 && |table| == 1024 && 0x400000 <= tableAt < 0x800000 && tableAt % 0x1000 == 0
    }
  }

  predicate Present(e: int) { e % 2 == 1 }
  predicate Writable(e: int) { e / 2 % 2 == 1 }
  predicate UserPage(e: int) { e / 4 % 2 == 1 }
  predicate Large(e: int) { e / 128 % 2 == 1 }
  predicate MayWrite(e: int, user: bool) { Present(e) && (user ==> UserPage(e) && Writable(e)) }

  /** The physical address a write to `va` reaches, or a page fault. */
  function Translate(p: Pages, va: int, user: bool): Option<int>
    requires p.Shaped() && 0 <= va < 0x1_0000_0000
  {
    var pde := p.dir[va / 0x400000];
    if !MayWrite(pde, user) then None
    else if Large(pde) then Some(pde / 0x400000 * 0x400000 + va % 0x400000)
    else if pde / 0x1000 * 0x1000 != p.tableAt then None
    else
      var pte := p.table[va / 0x1000 % 1024];
      if MayWrite(pte, user) then Some(pte / 0x1000 * 0x1000 + va % 0x1000) else None
  }

  // ----- What the kernel writes into the tables -----

  /** `(uint32_t*)UNIT_8_MB + pid * UNIT_4_MB` counts in words: frames are 16 MB apart. */
  function FrameBase(pid: int): int { 0x800000 + 4 * (pid * 0x400000) }

  function Setup(tableAt: int): Pages {
    Pages(seq(1024, i => if i == 0 then tableAt + PRESENT_RW else if i == 1 then 0x400000 + KERNEL_4MB else RW_ONLY),
          seq(1024, i => i * 0x1000 + (if 184 <= i <= 187 then PRESENT_RW else RW_ONLY)),
          tableAt)
  }

  function MapPage(p: Pages, phys: int, virt: int): Pages
    requires p.Shaped() && 0 <= virt < 0x1_0000_0000
  {
    p.(dir := p.dir[virt / 0x400000 := phys + USER_4MB])
  }

  function MapVid(p: Pages, phys: int): Pages
    requires p.Shaped()
  {
    p.(table := p.table[0 := phys + USER_RW])
  }

  /** The vidmap call opens the table to user mode at 136 MB and aims its first page at the screen. */
  function OpenVidmap(p: Pages): Pages
    requires p.Shaped()
  {
    MapVid(p.(dir := p.dir[34 := p.tableAt + USER_RW]), VIDEO)
  }

  /** A page of video memory: the screen, or the backing page of terminal `page - 1`. */
  predicate VideoPage(a: int) {
    a == VIDEO || a == VIDEO + 0x1000 || a == VIDEO + 0x2000 || a == VIDEO + 0x3000
  }

  /** What the tables keep besides the program page; behind the vidmap page lies a video page. */
  predicate Fixed(p: Pages) {
    && p.Shaped()
    && p.dir[0] == p.tableAt + PRESENT_RW && p.dir[1] == 0x400000 + KERNEL_4MB
    && (p.dir[34] == RW_ONLY || p.dir[34] == p.tableAt + USER_RW)
    && (forall i :: 0 <= i < 1024 && i != 0 && i != 1 && i != 32 && i != 34 ==> p.dir[i] == RW_ONLY)
    && (p.table[0] == RW_ONLY || (p.table[0] >= USER_RW && VideoPage(p.table[0] - USER_RW)))
    && (forall i :: 1 <= i < 1024 ==>
          p.table[i] == i * 0x1000 + (if 184 <= i <= 187 then PRESENT_RW else RW_ONLY))
  }

  /** The program page is the frame of process `pid`. */
  predicate Maps(p: Pages, pid: int) {
    Fixed(p) && 0 <= pid < 6 && p.dir[32] == FrameBase(pid) + USER_4MB
  }

  lemma SetupFixed(tableAt: int)
    requires Setup(tableAt).Shaped()
    ensures Fixed(Setup(tableAt)) && Setup(tableAt).dir[32] == RW_ONLY
  {
  }

  lemma MapsProgram(p: Pages, pid: int)
    requires Fixed(p) && 0 <= pid < 6
    ensures Maps(MapPage(p, FrameBase(pid), PROGRAM_PAGE), pid)
  {
    assert PROGRAM_PAGE / 0x400000 == 32;
  }

  predicate InFrame(a: int, pid: int) { FrameBase(pid) <= a < FrameBase(pid) + 0x400000 }
  predicate InVideo(a: int) { VIDEO <= a < VIDEO + 0x4000 }

  /** Where user-mode writes end up: the program page in the own frame, the vidmap page on a video page. */
  lemma UserReach(p: Pages, pid: int, va: int)
    requires Maps(p, pid) && 0 <= va < 0x1_0000_0000
    ensures var r := Translate(p, va, true);
            if va / 0x400000 == 32 then r == Some(FrameBase(pid) + va % 0x400000)
            else if r == None then true
            else va / 0x1000 == 0x8800 && p.table[0] != RW_ONLY && r == Some(p.table[0] - USER_RW + va % 0x1000)
  {
    if va / 0x400000 == 34 {
      TableIndex(va);
      VidmapReach(p, va, va / 0x1000 % 1024);
    }
  }

  lemma TableIndex(va: int)
    requires va / 0x400000 == 34
    ensures va / 0x1000 == 0x8800 + va / 0x1000 % 1024
  {
  }

  /** No entry of the table but the first is open to user mode. */
  lemma ClosedEntry(p: Pages, k: int)
    requires Fixed(p) && 1 <= k < 1024
    ensures !MayWrite(p.table[k], true)
  {
  }

  lemma FirstEntry(p: Pages)
    requires Fixed(p) && MayWrite(p.table[0], true)
    ensures p.table[0] != RW_ONLY && p.table[0] / 0x1000 * 0x1000 == p.table[0] - USER_RW
  {
  }

  lemma VidmapReach(p: Pages, va: int, k: int)
    requires Fixed(p) && 0 <= va < 0x1_0000_0000 && va / 0x400000 == 34 && k == va / 0x1000 % 1024
    requires va / 0x1000 == 0x8800 + k
    ensures var r := Translate(p, va, true);
            r == None || (va / 0x1000 == 0x8800 && p.table[0] != RW_ONLY && r == Some(p.table[0] - USER_RW + va % 0x1000))
  {
    TableOrFault(p, va, k);
    if k > 0 {
      ClosedEntry(p, k);
    } else if MayWrite(p.table[0], true) {
      FirstEntry(p);
    }
  }

  lemma TableOrFault(p: Pages, va: int, k: int)
    requires Fixed(p) && 0 <= va < 0x1_0000_0000 && va / 0x400000 == 34 && k == va / 0x1000 % 1024
    ensures Translate(p, va, true) == None ||
            (MayWrite(p.table[k], true) && Translate(p, va, true) == Some(p.table[k] / 0x1000 * 0x1000 + va % 0x1000))
  {
    if p.dir[34] == p.tableAt + USER_RW {
      TableAddress(p.tableAt);
    }
  }

  lemma TableAddress(at: int)
    requires at % 0x1000 == 0
    ensures !Large(at + USER_RW) && (at + USER_RW) / 0x1000 * 0x1000 == at
    ensures !Large(at + PRESENT_RW) && (at + PRESENT_RW) / 0x1000 * 0x1000 == at
  {
    var q := at / 0x1000;
    assert at == 0x1000 * q;
    SmallFlags(q, USER_RW);
    SmallFlags(q, PRESENT_RW);
  }

  /** What a table entry open to user mode makes of an address. */
  lemma ThroughOpenTable(p: Pages, va: int)
    requires p.Shaped() && 0 <= va < 0x1_0000_0000 && p.dir[va / 0x400000] == p.tableAt + USER_RW
    ensures var pte := p.table[va / 0x1000 % 1024];
            Translate(p, va, true) == if MayWrite(pte, true) then Some(pte / 0x1000 * 0x1000 + va % 0x1000) else None
  {
    TableAddress(p.tableAt);
    OpenEntry(p.tableAt / 0x1000);
    assert p.tableAt == 0x1000 * (p.tableAt / 0x1000);
  }

  lemma OpenEntry(q: int)
    ensures MayWrite(0x1000 * q + USER_RW, true)
  {
    LowBits(0x1000 * q + USER_RW, 0x200 * q);
  }

  /** A number seven above a multiple of eight has its three low bits set. */
  lemma LowBits(e: int, h: int)
    requires e == 8 * h + 7
    ensures MayWrite(e, true)
  {
    Halves(e, 4 * h + 3);
    Halves(4 * h + 3, 2 * h + 1);
    Halves(2 * h + 1, h);
    Quarter(e, 2 * h + 1);
  }

  lemma Halves(n: int, h: int)
    requires n == 2 * h + 1
    ensures n / 2 == h && n % 2 == 1
  {
  }

  lemma Quarter(n: int, h: int)
    requires n == 4 * h + 3
    ensures n / 4 == h
  {
  }

  /** Flags below 0x80 next to a page-aligned address. */
  lemma SmallFlags(q: int, flags: int)
    requires 0 <= flags < 0x80
    ensures !Large(0x1000 * q + flags) && (0x1000 * q + flags) / 0x1000 == q
  {
    assert (0x1000 * q + flags) / 128 == 32 * q;
  }

  /** Where kernel-mode writes end up besides the frame and the kernel's own page: video memory, or a fault. */
  lemma KernelReach(p: Pages, pid: int, va: int)
    requires Maps(p, pid) && 0 <= va < 0x1_0000_0000
    ensures var r := Translate(p, va, false);
            if va / 0x400000 == 32 then r == Some(FrameBase(pid) + va % 0x400000)
            else if va / 0x400000 == 1 then r == Some(va)
            else r == None || (InVideo(r.value) && (va < 0xBC000 || va / 0x400000 == 34))
  {
    var i := va / 0x400000;
    if i == 0 || i == 34 {
      ThroughTable(p, va);
    }
  }

  lemma ThroughTable(p: Pages, va: int)
    requires Fixed(p) && 0 <= va < 0x1_0000_0000 && (va / 0x400000 == 0 || va / 0x400000 == 34)
    ensures var r := Translate(p, va, false);
            r == None || (InVideo(r.value) && (va < 0xBC000 || va / 0x400000 == 34))
  {
    TableAddress(p.tableAt);
    TableIndexes(va);
    PresentEntry(p, va / 0x1000 % 1024);
  }

  lemma TableIndexes(va: int)
    requires va / 0x400000 == 0 || va / 0x400000 == 34
    ensures va / 0x400000 == 0 ==> va / 0x1000 == va / 0x1000 % 1024
  {
  }

  /** What a present entry of the table leads to is video memory. */
  lemma PresentEntry(p: Pages, k: int)
    requires Fixed(p) && 0 <= k < 1024
    ensures Present(p.table[k]) ==> VideoPage(p.table[k] / 0x1000 * 0x1000) && k < 188
  {
    if k == 0 {
      assert p.table[0] == RW_ONLY || VideoPage(p.table[0] - USER_RW);
    } else {
      assert p.table[k] == k * 0x1000 + (if 184 <= k <= 187 then PRESENT_RW else RW_ONLY);
    }
  }

  // ----- Copying through the tables in kernel mode -----

  /** A byte on its way to a physical address. */
  datatype Landing = Landing(at: int, b: byte)

  /** Where bytes copied to `va` onward arrive, up to the first that faults. */
  function Landings(p: Pages, va: int, bytes: seq<byte>): (ls: seq<Landing>)
    requires p.Shaped() && 0 <= va
    decreases |bytes|, va
  {
    if bytes == [] || va >= 0x1_0000_0000 then []
    else
      match Translate(p, va, false)
      case None => []
      case Some(a) => [Landing(a, bytes[0])] + Landings(p, va + 1, bytes[1..])
  }

  predicate InKernelPage(va: int) { 0x400000 <= va < 0x800000 }

  /** A copy that starts outside the kernel's page never gets there: it stays in the frame or in video memory. */
  lemma {:induction false} LandingsStay(p: Pages, pid: int, va: int, bytes: seq<byte>)
    requires Maps(p, pid) && 0 <= va && (bytes == [] || !InKernelPage(va))
    ensures forall l :: l in Landings(p, va, bytes) ==> InFrame(l.at, pid) || InVideo(l.at)
    decreases |bytes|
  {
    if bytes != [] && va < 0x1_0000_0000 {
      KernelReach(p, pid, va);
      if Translate(p, va, false).Some? {
        LandingsStay(p, pid, va + 1, bytes[1..]);
      }
    }
  }

  /** A copy into the program page lands in the frame only. */
  lemma {:induction false} LandingsOwn(p: Pages, pid: int, va: int, bytes: seq<byte>)
    requires Maps(p, pid) && 0 <= va && 32 <= va / 0x400000 <= 33
    ensures forall l :: l in Landings(p, va, bytes) ==> InFrame(l.at, pid)
    decreases |bytes|
  {
    if bytes != [] {
      KernelReach(p, pid, va);
      if Translate(p, va, false).Some? {
        LandingsOwn(p, pid, va + 1, bytes[1..]);
      }
    }
  }

  /** A byte written at an offset of the program page. */
  datatype Patch = Patch(offset: int, b: byte)

  /** What bytes copied to `va` onward put into the program page. */
  function PageWrites(va: int, bytes: seq<byte>): (w: seq<Patch>)
    ensures w != [] ==> va / 0x400000 == 32
    decreases |bytes|, va
  {
    if bytes == [] || va / 0x400000 != 32 then []
    else [Patch(va % 0x400000, bytes[0])] + PageWrites(va + 1, bytes[1..])
  }

  /** The landings in the frame of `pid`, as offsets. */
  function InFrameOf(ls: seq<Landing>, pid: int): seq<Patch>
    decreases |ls|
  {
    if ls == [] then []
    else (if InFrame(ls[0].at, pid) then [Patch(ls[0].at - FrameBase(pid), ls[0].b)] else []) + InFrameOf(ls[1..], pid)
  }

  lemma InFrameOfCons(l: Landing, rest: seq<Landing>, pid: int)
    ensures InFrameOf([l] + rest, pid) ==
            (if InFrame(l.at, pid) then [Patch(l.at - FrameBase(pid), l.b)] else []) + InFrameOf(rest, pid)
  {
    assert ([l] + rest)[1..] == rest;
  }

  /** What a copy leaves in the frame is what it was meant to write to the program page. */
  lemma {:induction false} LandingsInPage(p: Pages, pid: int, va: int, bytes: seq<byte>)
    requires Maps(p, pid) && 0 <= va
    ensures InFrameOf(Landings(p, va, bytes), pid) == PageWrites(va, bytes)
    decreases |bytes|
  {
    if bytes != [] && va < 0x1_0000_0000 {
      KernelReach(p, pid, va);
      var r := Translate(p, va, false);
      if r.Some? {
        LandingsInPage(p, pid, va + 1, bytes[1..]);
        InFrameOfCons(Landing(r.value, bytes[0]), Landings(p, va + 1, bytes[1..]), pid);
      }
    }
  }

  lemma FramesApart(a: int, p: int, q: int)
    requires 0 <= p < 6 && 0 <= q < 6 && InFrame(a, p)
    ensures InFrame(a, q) ==> p == q
    ensures !InVideo(a) && 0x800000 + 0x100_0000 * p <= a < 0xC00000 + 0x100_0000 * p < 0x1_0000_0000
  {
  }
}
