/** The page directory and page table as the kernel fills them in, against `Paging`. */
module Mmu {
  import opened Paging

  class PageTables {
    const pageDir: array<int>
    const pageTable: array<int>
    const tableAt: int

    ghost predicate Valid()
      reads this, pageDir, pageTable
    {
      pageDir != pageTable && Abs().Shaped()
    }

    ghost function Abs(): Pages
      reads this, pageDir, pageTable
    {
      Pages(pageDir[..], pageTable[..], tableAt)
    }

    /** The work of `setup_paging`. */
    constructor (tableAddress: int)
      requires 0x400000 <= tableAddress < 0x800000 && tableAddress % 0x1000 == 0
      ensures Valid() && Abs() == Setup(tableAddress)
      ensures fresh(pageDir) && fresh(pageTable)
    {
      pageDir := new int[1024];
      pageTable := new int[1024];
      tableAt := tableAddress;
      new;
      InitPageDirectory();
      InitPageTable();
      InitPageMap();
      assert pageDir[..] == Setup(tableAddress).dir;
      assert pageTable[..] == Setup(tableAddress).table;
    }

    method InitPageDirectory()
      requires pageDir.Length == 1024
      modifies pageDir
      ensures forall i :: 0 <= i < 1024 ==> pageDir[i] == RW_ONLY
    {
      var i := 0;
      while i < 1024
        invariant 0 <= i <= 1024
        invariant forall k :: 0 <= k < i ==> pageDir[k] == RW_ONLY
      {
        pageDir[i] := RW_ONLY;
        i := i + 1;
      }
    }

    method InitPageTable()
      requires pageTable.Length == 1024
      modifies pageTable
      ensures forall i :: 0 <= i < 1024 ==> pageTable[i] == i * 0x1000 + RW_ONLY
    {
      var i := 0;
      while i < 1024
        invariant 0 <= i <= 1024
        invariant forall k :: 0 <= k < i ==> pageTable[k] == k * 0x1000 + RW_ONLY
      {
        pageTable[i] := i * 0x1000 + RW_ONLY;
        i := i + 1;
      }
    }

    /** Maps the first 4 MB through the table, the kernel's 4 MB, and the four video pages. */
    method InitPageMap()
      requires pageDir != pageTable && pageDir.Length == pageTable.Length == 1024
      requires forall i :: 184 <= i <= 187 ==> !Present(pageTable[i])
      modifies pageDir, pageTable
      ensures pageDir[..] == old(pageDir[..])[0 := tableAt + PRESENT_RW][1 := 0x400000 + KERNEL_4MB]
      ensures forall i :: 0 <= i < 1024 ==>
                pageTable[i] == old(pageTable[i]) + (if 184 <= i <= 187 then 1 else 0)
    {
      pageDir[0] := tableAt + PRESENT_RW;
      pageDir[1] := 0x400000 + KERNEL_4MB;
      pageTable[184] := pageTable[184] + 1;
      pageTable[185] := pageTable[185] + 1;
      pageTable[186] := pageTable[186] + 1;
      pageTable[187] := pageTable[187] + 1;
    }

    method MapPage(phys: int, virt: int)
      requires Valid() && 0 <= virt < 0x1_0000_0000
      modifies pageDir
      ensures Valid() && Abs() == Paging.MapPage(old(Abs()), phys, virt)
    {
      var index := virt / 0x400000;
      pageDir[index] := phys + USER_4MB;
    }

    method MapVid(phys: int)
      requires Valid()
      modifies pageTable
      ensures Valid() && Abs() == Paging.MapVid(old(Abs()), phys)
    {
      pageTable[0] := 0;
      pageTable[0] := pageTable[0] + phys;
      pageTable[0] := pageTable[0] + USER_RW;
    }

    /** Opens the vidmap page and returns where user programs find it. */
    method GetVidmapPage() returns (virt: int)
      requires Valid()
      modifies pageDir, pageTable
      ensures Valid() && Abs() == OpenVidmap(old(Abs())) && virt == VIDMAP_PAGE
    {
      pageDir[34] := 0;
      pageDir[34] := pageDir[34] + tableAt;
      pageDir[34] := pageDir[34] + USER_RW;
      pageTable[0] := 0;
      pageTable[0] := pageTable[0] + VIDEO;
      pageTable[0] := pageTable[0] + USER_RW;
      virt := 34 * 0x400000;
    }

    /** What the processor does with a write to `va`. */
    method Resolve(va: int, user: bool) returns (r: Option<int>)
      requires Valid() && 0 <= va < 0x1_0000_0000
      ensures r == Translate(Abs(), va, user)
    {
      var pde := pageDir[va / 0x400000];
      if !MayWrite(pde, user) { return None; }
      if Large(pde) { return Some(pde / 0x400000 * 0x400000 + va % 0x400000); }
      if pde / 0x1000 * 0x1000 != tableAt { return None; }
      var pte := pageTable[va / 0x1000 % 1024];
      if !MayWrite(pte, user) { return None; }
      return Some(pte / 0x1000 * 0x1000 + va % 0x1000);
    }
  }
}
