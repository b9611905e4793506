/**
 Growing and shrinking a process: its image is one stretch of memory, a page of system data followed
 by data and stack, and every change of size moves the stack, or everything, byte by byte.
 */
module ProcessImages {
  import opened Words
  import opened Allocators
  import opened PageTables

  const USIZE := PAGE_SIZE

  // Copying a segment, one byte after the other.

  /** The byte at `x` after bytes `src` to `src + n` have been copied to `dst`. */
  function MovedByte(was: seq<byte>, src: int, dst: int, n: int, x: int): byte {
    if dst <= x < dst + n && 0 <= src + (x - dst) < |was| then was[src + (x - dst)]
    else if 0 <= x < |was| then was[x] else 0
  }

  ghost predicate Moved(was: seq<byte>, mem: seq<byte>, src: int, dst: int, n: int) {
    |mem| == |was| && forall x :: 0 <= x < |mem| ==> mem[x] == MovedByte(was, src, dst, n, x)
  }

  /** First byte first: right when the copy goes down or does not overlap. */
  method CopyDown(mem: array<byte>, src: int, dst: int, n: int)
    requires 0 <= n && 0 <= src && src + n <= mem.Length && 0 <= dst && dst + n <= mem.Length
    requires dst <= src || src + n <= dst
    modifies mem
    ensures Moved(old(mem[..]), mem[..], src, dst, n)
  {
    ghost var was := mem[..];
    var i := 0;
    while i < n
      invariant 0 <= i <= n
      invariant forall x :: 0 <= x < mem.Length ==> mem[x] == MovedByte(was, src, dst, i, x)
    {
      assert mem[src + i] == was[src + i];
      mem[dst + i] := mem[src + i];
      i := i + 1;
    }
  }

  /** Last byte first: right when the copy goes up. */
  method CopyUp(mem: array<byte>, src: int, dst: int, n: int)
    requires 0 <= n && 0 <= src <= dst && dst + n <= mem.Length
    modifies mem
    ensures Moved(old(mem[..]), mem[..], src, dst, n)
  {
    ghost var was := mem[..];
    var count, at := n, dst + n;
    while count > 0
      invariant 0 <= count <= n && at == dst + count
      invariant forall x :: 0 <= x < mem.Length ==> mem[x] == MovedByte(was, src + count, at, n - count, x)
    {
      at := at - 1;
      count := count - 1;
      assert mem[src + count] == was[src + count];
      mem[at] := mem[at - (dst - src)];
    }
  }

  // What the user sees.

  /** The byte at a user address, through the page table; 0 where nothing is mapped. */
  function UserByte(mem: seq<byte>, hw: seq<Pte>, va: int): byte
    requires |hw| == ENTRIES
  {
    var a := Phys(hw, va);
    if 0 <= a < |mem| then mem[a] else 0
  }

  /** Every user address that is mapped before and after reads the same. */
  ghost predicate SameToUser(mem0: seq<byte>, hw0: seq<Pte>, mem1: seq<byte>, hw1: seq<Pte>)
    requires |hw0| == |hw1| == ENTRIES
  {
    forall va :: Phys(hw0, va) >= 0 && Phys(hw1, va) >= 0 ==> UserByte(mem1, hw1, va) == UserByte(mem0, hw0, va)
  }

  predicate DataByteKept(mem0: seq<byte>, p0: int, mem1: seq<byte>, p1: int, off: int) {
    var a0, a1 := p0 + USIZE + off, p1 + USIZE + off;
    0 <= a0 < |mem0| && 0 <= a1 < |mem1| && mem1[a1] == mem0[a0]
  }

  /** Stack bytes count from the top. */
  predicate StackByteKept(mem0: seq<byte>, p0: int, l0: Layout, mem1: seq<byte>, p1: int, l1: Layout, k: int) {
    var a0, a1 := p0 + USIZE + l0.dataSize + l0.stackSize - k, p1 + USIZE + l1.dataSize + l1.stackSize - k;
    0 <= a0 < |mem0| && 0 <= a1 < |mem1| && mem1[a1] == mem0[a0]
  }

  /** Data and stack are where the new layout has them, and page 0 and the text have not changed. */
  ghost predicate Relocated(mem0: seq<byte>, p0: int, l0: Layout, mem1: seq<byte>, p1: int, l1: Layout, textAddress: int) {
    && |mem0| == |mem1|
    && (forall a :: 0 <= a < PAGE_SIZE && a < |mem0| ==> mem1[a] == mem0[a])
    && (forall a :: 0 <= textAddress <= a < textAddress + PAGE_SIZE * Pages(l0.textSize) && a < |mem0| ==> mem1[a] == mem0[a])
    && (forall off :: 0 <= off < l0.dataSize && off < l1.dataSize ==> DataByteKept(mem0, p0, mem1, p1, off))
    && (forall k :: 0 < k <= l0.stackSize && k <= l1.stackSize ==> StackByteKept(mem0, p0, l0, mem1, p1, l1, k))
  }

  predicate Resized(l0: Layout, l1: Layout) {
    && l0.Aligned() && l1.Aligned()
    && (l1 == l0.(dataSize := l1.dataSize) || l1 == l0.(stackSize := l1.stackSize))
  }

  lemma {:induction false} SameByte(mem0: seq<byte>, hw0: seq<Pte>, p0: int, l0: Layout,
                                    mem1: seq<byte>, hw1: seq<Pte>, p1: int, l1: Layout, textAddress: int, va: int)
    requires Resized(l0, l1) && Relocated(mem0, p0, l0, mem1, p1, l1, textAddress)
    requires Loaded(hw0, Relative(l0), textAddress, p0) && Loaded(hw1, Relative(l1), textAddress, p1)
    requires p0 % PAGE_SIZE == 0 && p1 % PAGE_SIZE == 0 && textAddress % PAGE_SIZE == 0
    requires textAddress >= 0 && PAGE_SIZE <= |mem0| && textAddress + PAGE_SIZE * Pages(l0.textSize) <= |mem0|
    requires |hw0| == |hw1| == ENTRIES && Phys(hw0, va) >= 0 && Phys(hw1, va) >= 0
    ensures UserByte(mem1, hw1, va) == UserByte(mem0, hw0, va)
  {
    hide Relative, Loaded, Phys;
    if SegmentOf(l0, va) == Nowhere {
      NowhereUnmapped(hw0, l0, textAddress, p0, va);
    } else if SegmentOf(l1, va) == Nowhere {
      NowhereUnmapped(hw1, l1, textAddress, p1, va);
    } else {
      StackStarts(l0);
      StackStarts(l1);
      match SegmentOf(l0, va)
      case Zero =>
        ZeroPage(hw0, l0, textAddress, p0, va);
        ZeroPage(hw1, l1, textAddress, p1, va);
      case Text =>
        TextPhys(hw0, l0, textAddress, p0, va - l0.text);
        TextPhys(hw1, l1, textAddress, p1, va - l1.text);
      case Data =>
        DataPhys(hw0, l0, textAddress, p0, va - l0.data);
        DataPhys(hw1, l1, textAddress, p1, va - l1.data);
        assert DataByteKept(mem0, p0, mem1, p1, va - l0.data);
      case Stack =>
        StackPhys(hw0, l0, textAddress, p0, va - l0.StackStart());
        StackPhys(hw1, l1, textAddress, p1, va - l1.StackStart());
        assert StackByteKept(mem0, p0, l0, mem1, p1, l1, USER_SPACE_SIZE - va);
    }
  }

  lemma {:induction false} StackStarts(l: Layout)
    requires l.Aligned()
    ensures l.StackStart() == USER_SPACE_SIZE - l.stackSize
    ensures Pages(l.dataSize) * PAGE_SIZE == l.dataSize
  {
  }

  lemma {:induction false} SameEverywhere(mem0: seq<byte>, hw0: seq<Pte>, p0: int, l0: Layout,
                                          mem1: seq<byte>, hw1: seq<Pte>, p1: int, l1: Layout, textAddress: int)
    requires Resized(l0, l1) && Relocated(mem0, p0, l0, mem1, p1, l1, textAddress)
    requires Loaded(hw0, Relative(l0), textAddress, p0) && Loaded(hw1, Relative(l1), textAddress, p1)
    requires p0 % PAGE_SIZE == 0 && p1 % PAGE_SIZE == 0 && textAddress % PAGE_SIZE == 0
    requires textAddress >= 0 && PAGE_SIZE <= |mem0| && textAddress + PAGE_SIZE * Pages(l0.textSize) <= |mem0|
    requires |hw0| == |hw1| == ENTRIES
    ensures SameToUser(mem0, hw0, mem1, hw1)
  {
    hide Relative, Loaded, Phys, Relocated, Resized, UserByte;
    forall va | Phys(hw0, va) >= 0 && Phys(hw1, va) >= 0 ensures UserByte(mem1, hw1, va) == UserByte(mem0, hw0, va) {
      SameByte(mem0, hw0, p0, l0, mem1, hw1, p1, l1, textAddress, va);
    }
  }

  // Pages in use.

  /** Whole pages of memory, from `first` on, that are not free. */
  ghost predicate InUse(free: seq<MapNode>, first: int, pages: int) {
    0 <= pages && forall x :: x in FreeSet(free) ==> x < first || x >= first + pages
  }

  ghost predicate FreeInMemory(free: seq<MapNode>, memory: int) {
    forall x :: x in FreeSet(free) ==> 0 < x && PAGE_SIZE * (x + 1) <= memory
  }

  predicate Apart(a: int, m: int, b: int, n: int) {
    m == 0 || n == 0 || a + m <= b || b + n <= a
  }

  /** The image's and the text's pages are in use, and apart. All in pages. */
  ghost predicate MemoryOk(free: seq<MapNode>, memory: int, first: int, pages: int, text: int, textPages: int) {
    && Canonical(free) && FreeInMemory(free, memory) && first > 0 && text > 0
    && InUse(free, first, pages) && PAGE_SIZE * (first + pages) <= memory
    && InUse(free, text, textPages) && PAGE_SIZE * (text + textPages) <= memory
    && Apart(first, pages, text, textPages)
  }

  /** The free pages and the image's together. */
  ghost function AllPages(free: seq<MapNode>, first: int, pages: int): set<int> {
    FreeSet(free) + Range(first, pages)
  }

  lemma {:induction false} SameAllPages(free0: seq<MapNode>, first0: int, pages0: int,
                                        free1: seq<MapNode>, first1: int, pages1: int)
    requires forall x :: x in FreeSet(free1) || first1 <= x < first1 + pages1
                    <==> x in FreeSet(free0) || first0 <= x < first0 + pages0
    ensures AllPages(free1, first1, pages1) == AllPages(free0, first0, pages0)
  {
    hide FreeSet, Range;
    InRange(first0, pages0);
    InRange(first1, pages1);
    forall x ensures x in AllPages(free1, first1, pages1) <==> x in AllPages(free0, first0, pages0) {
      assert x in AllPages(free1, first1, pages1) <==> x in FreeSet(free1) || first1 <= x < first1 + pages1;
      assert x in AllPages(free0, first0, pages0) <==> x in FreeSet(free0) || first0 <= x < first0 + pages0;
    }
  }

  lemma {:induction false} RangeApart(addr: int, size: int, s: set<int>)
    requires forall x :: x in s ==> x < addr || x >= addr + size
    ensures Range(addr, size) !! s
  {
    var r := Range(addr, size);
    InRange(addr, size);
    forall x | x in r ensures x !in s {
    }
  }

  /** Giving back the end of the image. */
  lemma {:induction false} Shrunk(free: seq<MapNode>, memory: int, first: int, pages: int, text: int, textPages: int, kept: int)
    requires MemoryOk(free, memory, first, pages, text, textPages) && 0 <= kept <= pages
    ensures Range(first + kept, pages - kept) !! FreeSet(free)
    ensures MemoryOk(Released(free, pages - kept, first + kept), memory, first, kept, text, textPages)
    ensures AllPages(Released(free, pages - kept, first + kept), first, kept) == AllPages(free, first, pages)
  {
    hide Canonical, FreeSet, Range, Released, AllPages;
    RangeApart(first + kept, pages - kept, FreeSet(free));
    FreedRange(free, first + kept, pages - kept);
    SameAllPages(free, first, pages, Released(free, pages - kept, first + kept), first, kept);
  }

  lemma {:induction false} FreedRange(free: seq<MapNode>, from: int, n: int)
    requires Canonical(free) && from > 0 && n >= 0 && Range(from, n) !! FreeSet(free)
    ensures Canonical(Released(free, n, from))
    ensures forall x :: x in FreeSet(Released(free, n, from)) <==> x in FreeSet(free) || from <= x < from + n
  {
    hide Canonical, FreeSet, Range, Released;
    InRange(from, n);
    if n == 0 {
      ReleasedNothing(free, from);
    } else {
      ReleasedIsAdded(free, n, from);
    }
  }

  /** Moving the image to a new place and giving back the old one. */
  lemma {:induction false} Moving(free: seq<MapNode>, memory: int, first: int, pages: int, text: int, textPages: int, wanted: int)
    requires MemoryOk(free, memory, first, pages, text, textPages) && wanted > 0 && FirstFit(free, wanted) < |free|
    ensures var k := FirstFit(free, wanted);
            var taken, at := Taken(free, k, wanted), free[k].m_AddressIdx;
            && at > 0 && PAGE_SIZE * (at + wanted) <= memory
            && Apart(at, wanted, first, pages) && Apart(at, wanted, text, textPages)
            && Range(first, pages) !! FreeSet(taken)
            && MemoryOk(Released(taken, pages, first), memory, at, wanted, text, textPages)
            && AllPages(Released(taken, pages, first), at, wanted) == AllPages(free, first, pages)
  {
    hide Canonical, FreeSet, Range, Released, Taken, FirstFit, AllPages;
    var k := FirstFit(free, wanted);
    var at := free[k].m_AddressIdx;
    var taken := Taken(free, k, wanted);
    Around(free, k);
    TakenIsRemoved(free, k, wanted);
    InRange(at, wanted);
    assert forall x :: at <= x < at + wanted ==> x in FreeSet(free) by {
      forall x | at <= x < at + wanted ensures x in FreeSet(free) {
        assert x in Range(at, wanted);
      }
    }
    assert at in FreeSet(free) && at + wanted - 1 in FreeSet(free);
    IntervalsApart(FreeSet(free), at, wanted, first, pages);
    IntervalsApart(FreeSet(free), at, wanted, text, textPages);
    RangeApart(first, pages, FreeSet(taken));
    FreedRange(taken, first, pages);
    SameAllPages(free, first, pages, Released(taken, pages, first), at, wanted);
  }

  lemma {:induction false} IntervalsApart(s: set<int>, a: int, m: int, b: int, n: int)
    requires m > 0 && n >= 0 && (forall x :: a <= x < a + m ==> x in s) && (forall x :: x in s ==> x < b || x >= b + n)
    ensures Apart(a, m, b, n)
  {
    if a < b {
      assert b !in s || n == 0;
    } else {
      assert a in s;
    }
  }

  /** Whether `EstablishUserPageTable` accepts the sizes. */
  predicate Accepted(l: Layout) {
    l.textSize + l.dataSize + l.stackSize + PAGE_SIZE <= USER_SPACE_SIZE - l.text
  }

  /** Between text and data there is no page to spare. */
  predicate Adjacent(l: Layout) {
    l.data < l.text + l.textSize + 2 * PAGE_SIZE
  }

  lemma {:induction false} AcceptedIsAligned(l0: Layout, l: Layout)
    requires l0.Aligned() && Adjacent(l0) && Accepted(l) && Sized(l0, l)
    ensures l.Aligned()
  {
    AlignedPages(l.dataSize);
  }

  /** `l` is `l0` with other sizes of data and stack, in whole pages. */
  predicate Sized(l0: Layout, l: Layout) {
    && l == l0.(dataSize := l.dataSize, stackSize := l.stackSize) && 0 <= l.dataSize && 0 <= l.stackSize
    && l.dataSize % PAGE_SIZE == 0 && l.stackSize % PAGE_SIZE == 0
  }

  /**
   `EstablishUserPageTable` does not look at the gap between text and data: all sizes it accepts leave
   room between data and stack if and only if there is no page to spare in that gap.
   */
  lemma {:induction false} AcceptedFitsIffAdjacent(l0: Layout)
    requires l0.text % PAGE_SIZE == 0 && l0.data % PAGE_SIZE == 0 && 0 < l0.text && 0 <= l0.textSize
    requires l0.text + PAGE_SIZE * Pages(l0.textSize) <= l0.data <= USER_SPACE_SIZE
    ensures Adjacent(l0) <==> forall l :: Sized(l0, l) && Accepted(l) ==> l.Aligned()
  {
    if Adjacent(l0) {
      forall l | Sized(l0, l) && Accepted(l) ensures l.Aligned() {
        AlignedPages(l.dataSize);
      }
    } else {
      var l := l0.(dataSize := USER_SPACE_SIZE - l0.data + PAGE_SIZE, stackSize := 0);
      AlignedPages(l.dataSize);
      assert Sized(l0, l) && Accepted(l) && !l.Aligned();
    }
  }

  lemma {:induction false} SegmentBounds(l: Layout)
    requires l.Ok()
    ensures 0 <= l.text / PAGE_SIZE && l.text / PAGE_SIZE + Pages(l.textSize) <= ENTRIES && 0 <= Pages(l.textSize)
    ensures 0 <= l.data / PAGE_SIZE && l.data / PAGE_SIZE + Pages(l.dataSize) <= ENTRIES && 0 <= Pages(l.dataSize)
    ensures 0 <= l.StackStart() / PAGE_SIZE && l.StackStart() / PAGE_SIZE + Pages(l.stackSize) <= ENTRIES + 1
    ensures l.stackSize % PAGE_SIZE == 0 ==> l.StackStart() / PAGE_SIZE + Pages(l.stackSize) == ENTRIES
    ensures 0 <= Pages(l.stackSize)
  {
  }

  class Process {
    const memory: array<byte>
    const m_UserPageTableArray: array<Pte>
    const hardware: array<Pte>
    const freePages: array<MapNode>
    const x_caddr: int
    var p_addr: int
    var p_size: int
    var m_TextStartAddress: int
    var m_TextSize: int
    var m_DataStartAddress: int
    var m_DataSize: int
    var m_StackSize: int
    /** The regions in `freePages`. */
    ghost var free: seq<MapNode>

    function Md(): Layout
      reads this
    {
      Layout(m_TextStartAddress, m_TextSize, m_DataStartAddress, m_DataSize, m_StackSize)
    }

    ghost predicate Tables()
      reads this, m_UserPageTableArray, hardware
    {
      && m_UserPageTableArray.Length == ENTRIES == hardware.Length && m_UserPageTableArray != hardware
      && m_UserPageTableArray[..] == Relative(Md())
      && Loaded(hardware[..], m_UserPageTableArray[..], x_caddr, p_addr)
    }

    ghost predicate Pool()
      reads this, memory, freePages
    {
      && p_addr % PAGE_SIZE == 0 && x_caddr % PAGE_SIZE == 0 && p_size % PAGE_SIZE == 0 && p_size > 0 && m_TextSize >= 0
      && Holds(freePages[..], free)
      && MemoryOk(free, memory.Length, p_addr / PAGE_SIZE, p_size / PAGE_SIZE, x_caddr / PAGE_SIZE, Pages(m_TextSize))
    }

    ghost predicate Valid()
      reads this, memory, m_UserPageTableArray, hardware, freePages
    {
      && Md().Aligned() && Adjacent(Md())
      && p_size == USIZE + m_DataSize + m_StackSize
      && Tables() && Pool()
    }

    /** The pages that are free or the image's own; by `Pool` none is both. */
    ghost function Owned(): set<int>
      reads this
    {
      AllPages(free, p_addr / PAGE_SIZE, p_size / PAGE_SIZE)
    }

    method MapEntry(virtualAddress: int, size: int, phyPageIdx: int, isReadWrite: bool) returns (next: int)
      requires m_UserPageTableArray.Length == ENTRIES && 0 <= virtualAddress && 0 <= size
      requires virtualAddress / PAGE_SIZE + Pages(size) <= ENTRIES
      modifies m_UserPageTableArray
      ensures next == phyPageIdx + Pages(size)
      ensures m_UserPageTableArray[..]
           == WithEntries(old(m_UserPageTableArray[..]), virtualAddress / PAGE_SIZE, Pages(size), phyPageIdx, isReadWrite)
    {
      var startIdx, cnt := virtualAddress / PAGE_SIZE, Pages(size);
      next := phyPageIdx;
      ghost var was := m_UserPageTableArray[..];
      for i := startIdx to startIdx + cnt
        invariant next == phyPageIdx + (i - startIdx)
        invariant m_UserPageTableArray[..] == WithEntries(was, startIdx, i - startIdx, phyPageIdx, isReadWrite)
      {
        m_UserPageTableArray[i] := Pte(true, isReadWrite, next);
        next := next + 1;
      }
    }

    method ClearUserPageTable()
      requires m_UserPageTableArray.Length == ENTRIES
      modifies m_UserPageTableArray
      ensures m_UserPageTableArray[..] == Cleared()
    {
      for i := 0 to 2
        invariant forall x :: 0 <= x < 1024 * i ==> m_UserPageTableArray[x] == Pte(false, false, 0)
      {
        for j := 0 to 1024
          invariant forall x :: 0 <= x < 1024 * i + j ==> m_UserPageTableArray[x] == Pte(false, false, 0)
        {
          m_UserPageTableArray[1024 * i + j] := Pte(false, false, 0);
        }
      }
    }

    /** Loads the relative table, the text's pages from where the text lies and the others from the image. */
    method MapToPageTable()
      requires m_UserPageTableArray.Length == ENTRIES == hardware.Length && m_UserPageTableArray != hardware
      modifies hardware
      ensures Loaded(hardware[..], m_UserPageTableArray[..], x_caddr, p_addr)
    {
      ghost var rel := m_UserPageTableArray[..];
      for i := 0 to 2
        invariant forall x :: 0 < x < 1024 * i ==> LoadedEntry(hardware[x], rel[x], x, x_caddr, p_addr)
      {
        for j := 0 to 1024
          invariant forall x :: 0 < x < 1024 * i + j ==> LoadedEntry(hardware[x], rel[x], x, x_caddr, p_addr)
        {
          var x := 1024 * i + j;
          var e := m_UserPageTableArray[x];
          hardware[x] := hardware[x].(m_Present := false);
          if e.m_Present {
            if !e.m_ReadWriter {
              hardware[x] := Pte(true, e.m_ReadWriter, e.m_PageBaseAddress + x_caddr / PAGE_SIZE);
            } else {
              hardware[x] := Pte(true, e.m_ReadWriter, e.m_PageBaseAddress + p_addr / PAGE_SIZE);
            }
          }
        }
      }
      hardware[0] := Pte(true, true, 0);
    }

    /** Builds and loads the tables for a layout, unless it is too large. */
    method EstablishUserPageTable(text: int, textSize: int, data: int, dataSize: int, stackSize: int) returns (ok: bool)
      requires m_UserPageTableArray.Length == ENTRIES == hardware.Length && m_UserPageTableArray != hardware
      requires var l := Layout(text, textSize, data, dataSize, stackSize); Accepted(l) ==> l.Aligned()
      modifies m_UserPageTableArray, hardware
      ensures ok <==> Accepted(Layout(text, textSize, data, dataSize, stackSize))
      ensures !ok ==> m_UserPageTableArray[..] == old(m_UserPageTableArray[..]) && hardware[..] == old(hardware[..])
      ensures ok ==> m_UserPageTableArray[..] == Relative(Layout(text, textSize, data, dataSize, stackSize))
      ensures ok ==> Loaded(hardware[..], m_UserPageTableArray[..], x_caddr, p_addr)
    {
      hide WithEntries, Loaded;
      if textSize + dataSize + stackSize + PAGE_SIZE > USER_SPACE_SIZE - text {
        return false;
      }
      SegmentBounds(Layout(text, textSize, data, dataSize, stackSize));
      ClearUserPageTable();
      var phyPageIndex := MapEntry(text, textSize, 0, false);
      phyPageIndex := MapEntry(data, dataSize, 1, true);
      var stackStartAddress := (USER_SPACE_SIZE - stackSize) / PAGE_SIZE * PAGE_SIZE;
      phyPageIndex := MapEntry(stackStartAddress, stackSize, phyPageIndex, true);
      MapToPageTable();
      ok := true;
    }

    method AllocMemory(size: int) returns (addr: int)
      requires Holds(freePages[..], free) && size > 0 && size % PAGE_SIZE == 0 && FirstFit(free, size / PAGE_SIZE) < |free|
      modifies this`free, freePages
      ensures Holds(freePages[..], free)
      ensures var k := FirstFit(old(free), size / PAGE_SIZE);
              addr == old(free)[k].m_AddressIdx * PAGE_SIZE && free == Taken(old(free), k, size / PAGE_SIZE)
      ensures |free| <= |old(free)|
    {
      hide Holds;
      AlignedPages(size);
      var idx;
      idx, free := Alloc(freePages, Pages(size), free);
      addr := idx * PAGE_SIZE;
    }

    method FreeMemory(size: int, startAddress: int)
      requires Holds(freePages[..], free) && |free| + 1 < freePages.Length
      requires size >= 0 && size % PAGE_SIZE == 0 && startAddress > 0 && startAddress % PAGE_SIZE == 0
      requires Range(startAddress / PAGE_SIZE, size / PAGE_SIZE) !! FreeSet(free)
      modifies this`free, freePages
      ensures Holds(freePages[..], free) && free == Released(old(free), size / PAGE_SIZE, startAddress / PAGE_SIZE)
    {
      hide Holds, Range, FreeSet;
      AlignedPages(size);
      free := Free(freePages, Pages(size), startAddress / PAGE_SIZE, free);
    }

    /** Gives the image a new size: the end is given back, or the whole image moves to a larger place. */
    method Expand(newSize: int)
      requires Pool() && newSize > 0 && newSize % PAGE_SIZE == 0 && |free| + 1 < freePages.Length
      requires m_UserPageTableArray.Length == ENTRIES == hardware.Length && m_UserPageTableArray != hardware
      requires newSize > p_size ==> FirstFit(free, newSize / PAGE_SIZE) < |free|
      modifies this`p_addr, this`p_size, this`free, memory, freePages, hardware
      ensures Pool() && p_size == newSize && Owned() == old(Owned())
      ensures newSize <= old(p_size) ==>
        p_addr == old(p_addr) && memory[..] == old(memory[..]) && hardware[..] == old(hardware[..])
      ensures newSize > old(p_size) ==>
        Moved(old(memory[..]), memory[..], old(p_addr), p_addr, old(p_size))
        && Loaded(hardware[..], m_UserPageTableArray[..], x_caddr, p_addr)
        && p_addr == old(free)[FirstFit(old(free), newSize / PAGE_SIZE)].m_AddressIdx * PAGE_SIZE
    {
      hide Holds, Range, FreeSet, Canonical, Released, Taken, FirstFit, InUse, FreeInMemory, Moved, Loaded, AllPages;
      var oldSize, oldAddress := p_size, p_addr;
      ghost var text := x_caddr / PAGE_SIZE;
      p_size := newSize;
      WholePages(oldAddress, oldSize, newSize);
      if oldSize >= newSize {
        Shrunk(free, memory.Length, oldAddress / PAGE_SIZE, oldSize / PAGE_SIZE, text, Pages(m_TextSize), newSize / PAGE_SIZE);
        FreeMemory(oldSize - newSize, oldAddress + newSize);
        return;
      }
      Moving(free, memory.Length, oldAddress / PAGE_SIZE, oldSize / PAGE_SIZE, text, Pages(m_TextSize), newSize / PAGE_SIZE);
      ghost var at := free[FirstFit(free, newSize / PAGE_SIZE)].m_AddressIdx;
      var newAddress := AllocMemory(newSize);
      p_addr := newAddress;
      ApartInBytes(at, oldAddress, oldSize, newSize);
      CopyDown(memory, oldAddress, newAddress, oldSize);
      FreeMemory(oldSize, oldAddress);
      MapToPageTable();
    }

    lemma PoolInBytes()
      requires Pool()
      ensures PAGE_SIZE <= p_addr && p_addr + p_size <= memory.Length
      ensures PAGE_SIZE <= x_caddr && x_caddr + PAGE_SIZE * Pages(m_TextSize) <= memory.Length && 0 <= Pages(m_TextSize)
      ensures Apart(p_addr, p_size, x_caddr, PAGE_SIZE * Pages(m_TextSize))
    {
      hide Holds, Canonical, FreeInMemory, InUse;
      BytesOfPages(p_addr, p_size, x_caddr, Pages(m_TextSize), memory.Length);
    }

    /** The sizes changed without a move of the image's start: the tables and the pool still fit. */
    method Resize(l: Layout) returns (ok: bool)
      requires Valid() && (Accepted(l) ==> l.Aligned()) && l == Md().(dataSize := l.dataSize, stackSize := l.stackSize)
      modifies m_UserPageTableArray, hardware
      ensures ok <==> Accepted(l)
      ensures !ok ==> Valid() && hardware[..] == old(hardware[..])
      ensures ok ==> m_UserPageTableArray[..] == Relative(l) && Loaded(hardware[..], m_UserPageTableArray[..], x_caddr, p_addr)
      ensures Pool()
    {
      hide Relative, Loaded, Holds, MemoryOk;
      ok := EstablishUserPageTable(l.text, l.textSize, l.data, l.dataSize, l.stackSize);
    }

    /** The tables are those of the new layout already, the image is still that of `l0`. */
    ghost predicate Halfway(l0: Layout)
      reads this, memory, m_UserPageTableArray, hardware, freePages
    {
      Resized(l0, Md()) && Adjacent(Md()) && Tables() && Pool() && p_size == ImageSize(l0)
    }

    /** The image shrinks from the data's end: the stack comes down byte by byte, then the rest is given back. */
    method ShrinkImage(change: int, newSize: int, ghost l0: Layout)
      requires Halfway(l0) && |free| + 1 < freePages.Length
      requires l0 == Md().(dataSize := m_DataSize - change) && change < 0 && newSize == ImageSize(Md())
      modifies this`p_addr, this`p_size, this`free, memory, freePages, hardware
      ensures Valid() && p_addr == old(p_addr) && hardware[..] == old(hardware[..]) && Owned() == old(Owned())
      ensures Relocated(old(memory[..]), p_addr, l0, memory[..], p_addr, Md(), x_caddr)
    {
      hide Relative, Loaded, Holds, MemoryOk, Moved, FirstFit, Relocated, AllPages;
      ghost var mem0 := memory[..];
      PoolInBytes();
      var dst := p_addr + newSize - m_StackSize;
      CopyDown(memory, dst - change, dst, m_StackSize);
      WholeImage(Md());
      ShrunkRelocated(mem0, memory[..], p_addr, l0, Md(), x_caddr);
      Expand(newSize);
    }

    /** The image grows: all of it moves to a larger place, where the stack goes up by the difference. */
    method GrowImage(change: int, newSize: int, count: int, ghost l0: Layout)
      requires Halfway(l0) && |free| + 1 < freePages.Length && FirstFit(free, newSize / PAGE_SIZE) < |free|
      requires l0.dataSize <= m_DataSize && l0.stackSize <= m_StackSize && newSize == ImageSize(Md())
      requires change == newSize - ImageSize(l0) > 0 && count == l0.stackSize
      modifies this`p_addr, this`p_size, this`free, memory, freePages, hardware
      ensures Valid() && Relocated(old(memory[..]), old(p_addr), l0, memory[..], p_addr, Md(), x_caddr)
      ensures Owned() == old(Owned())
    {
      hide Relative, Loaded, Holds, MemoryOk, Moved, FirstFit, Relocated, AllPages;
      ghost var mem0, p0 := memory[..], p_addr;
      PoolInBytes();
      WholeImage(Md());
      Expand(newSize);
      ghost var moved := memory[..];
      PoolInBytes();
      CopyUp(memory, p_addr + newSize - count - change, p_addr + newSize - count, count);
      GrownRelocated(mem0, moved, memory[..], p0, p_addr, l0, Md(), x_caddr);
    }

    /**
     Moves the end of the data segment. Bytes that are mapped before and after read the same to the
     user. The new size must be a whole number of pages, and memory for a larger image must be free.
     */
    method SBreak(newEnd: int) returns (eax: int, error: bool)
      requires Valid() && |free| + 1 < freePages.Length
      requires newEnd != 0 ==> newEnd >= m_DataStartAddress && (newEnd - m_DataStartAddress) % PAGE_SIZE == 0
      requires var l := Md().(dataSize := newEnd - m_DataStartAddress);
               newEnd != 0 && Accepted(l) && l.dataSize > m_DataSize ==> FirstFit(free, ImageSize(l) / PAGE_SIZE) < |free|
      modifies this, memory, m_UserPageTableArray, hardware, freePages
      ensures Valid() && Owned() == old(Owned())
      ensures var l := old(Md()).(dataSize := newEnd - m_DataStartAddress);
              && (error <==> newEnd != 0 && !Accepted(l))
              && Md() == (if newEnd == 0 || error then old(Md()) else l)
      ensures newEnd == 0 || error ==> p_addr == old(p_addr) && memory[..] == old(memory[..]) && hardware[..] == old(hardware[..])
      ensures SameToUser(old(memory[..]), old(hardware[..]), memory[..], hardware[..])
      ensures !error ==> eax == m_DataStartAddress + m_DataSize
    {
      hide Relative, Loaded, Holds, MemoryOk, FirstFit, Relocated, UserByte, Phys, AllPages;
      ghost var mem0, hw0, p0, l0 := memory[..], hardware[..], p_addr, Md();
      eax, error := m_DataStartAddress + m_DataSize, false;
      if newEnd == 0 {
        return;
      }
      var newSize := newEnd - m_DataStartAddress;
      var l := Md().(dataSize := newSize);
      if Accepted(l) {
        AcceptedIsAligned(l0, l);
      }
      var ok := Resize(l);
      if !ok {
        return eax, true;
      }
      PoolInBytes();
      var change := newSize - m_DataSize;
      m_DataSize := newSize;
      newSize := newSize + USIZE + m_StackSize;
      if change < 0 {
        ShrinkImage(change, newSize, l0);
      } else if change > 0 {
        GrowImage(change, newSize, m_StackSize, l0);
      } else {
        Unmoved(mem0, p0, l0, x_caddr);
      }
      SameEverywhere(mem0, hw0, p0, l0, memory[..], hardware[..], p_addr, l, x_caddr);
      eax := m_DataStartAddress + m_DataSize;
    }

    /**
     Grows the stack downwards by a page. If the layout would be too large, it reports the error but
     leaves the recorded stack size increased, so that it no longer fits the image.
     */
    method SStack() returns (error: bool)
      requires Valid() && |free| + 1 < freePages.Length
      requires var l := Md().(stackSize := m_StackSize + PAGE_SIZE);
               Accepted(l) ==> FirstFit(free, ImageSize(l) / PAGE_SIZE) < |free|
      modifies this, memory, m_UserPageTableArray, hardware, freePages
      ensures Md() == old(Md()).(stackSize := old(m_StackSize) + PAGE_SIZE)
      ensures error <==> !Accepted(Md())
      ensures error <==> !Valid()
      ensures Pool() && Owned() == old(Owned())
      ensures error ==> p_addr == old(p_addr) && p_size == old(p_size) && memory[..] == old(memory[..]) && hardware[..] == old(hardware[..])
      ensures SameToUser(old(memory[..]), old(hardware[..]), memory[..], hardware[..])
    {
      hide Relative, Loaded, Holds, MemoryOk, FirstFit, Relocated, UserByte, Phys, AllPages;
      ghost var mem0, hw0, p0, l0 := memory[..], hardware[..], p_addr, Md();
      var change := 4096;
      var l := Md().(stackSize := m_StackSize + change);
      if Accepted(l) {
        AcceptedIsAligned(l0, l);
      }
      PoolInBytes();
      var ok := Resize(l);
      m_StackSize := m_StackSize + change;
      var newSize := USIZE + m_DataSize + m_StackSize;
      if !ok {
        return true;
      }
      GrowImage(change, newSize, m_StackSize - change, l0);
      MapToPageTable();
      SameEverywhere(mem0, hw0, p0, l0, memory[..], hardware[..], p_addr, l, x_caddr);
      error := false;
    }
  }

  /**
   Where the user looks for the stack is where `SBreak` and `SStack` put it exactly if the data segment
   is a whole number of pages.
   */
  lemma {:induction false} StackFoundIffAligned(hw: seq<Pte>, l: Layout, textAddress: int, p_addr: int, off: int)
    requires l.Ok() && l.stackSize % PAGE_SIZE == 0 && Loaded(hw, Relative(l), textAddress, p_addr)
    requires p_addr % PAGE_SIZE == 0 && 0 <= off < l.stackSize
    ensures Phys(hw, l.StackStart() + off) == p_addr + ImageSize(l) - l.stackSize + off <==> l.dataSize % PAGE_SIZE == 0
  {
    hide Relative;
    var i := (l.StackStart() + off) / PAGE_SIZE;
    PageOf(l.StackStart(), l.StackStart() + off);
    PagesBound(l.stackSize, off);
    RelativeAt(l, i);
    RoundedUp(l.dataSize);
    assert LoadedEntry(hw[i], Relative(l)[i], i, textAddress, p_addr);
  }

  /** What `MapToPageTable` loads. */
  function LoadTable(rel: seq<Pte>, textAddress: int, p_addr: int): (hw: seq<Pte>)
    requires |rel| == ENTRIES
    ensures Loaded(hw, rel, textAddress, p_addr)
  {
    seq(ENTRIES, i requires 0 <= i < ENTRIES =>
      if i == 0 then Pte(true, true, 0)
      else if rel[i].m_Present then
        Pte(true, rel[i].m_ReadWriter, rel[i].m_PageBaseAddress + (if rel[i].m_ReadWriter then p_addr else textAddress) / PAGE_SIZE)
      else rel[i])
  }

  /** One byte of data: the user's stack is nearly a page away from where the image keeps it. */
  lemma {:induction false} StackElsewhere(textAddress: int, p_addr: int) returns (hw: seq<Pte>, l: Layout)
    requires p_addr % PAGE_SIZE == 0
    ensures l.Ok() && l.dataSize == 1 && l.stackSize == PAGE_SIZE && Loaded(hw, Relative(l), textAddress, p_addr)
    ensures Phys(hw, l.StackStart()) != p_addr + ImageSize(l) - l.stackSize
  {
    hide Relative, Loaded;
    l := Layout(PAGE_SIZE, PAGE_SIZE, 2 * PAGE_SIZE, 1, PAGE_SIZE);
    hw := LoadTable(Relative(l), textAddress, p_addr);
    StackFoundIffAligned(hw, l, textAddress, p_addr, 0);
  }

  lemma {:induction false} RoundedUp(size: int)
    requires 0 <= size
    ensures Pages(size) * PAGE_SIZE == size <==> size % PAGE_SIZE == 0
  {
  }

  lemma {:induction false} BytesOfPages(addr: int, size: int, text: int, textPages: int, memory: int)
    requires addr % PAGE_SIZE == 0 && size % PAGE_SIZE == 0 && text % PAGE_SIZE == 0 && 0 <= textPages
    requires PAGE_SIZE * (addr / PAGE_SIZE + size / PAGE_SIZE) <= memory && PAGE_SIZE * (text / PAGE_SIZE + textPages) <= memory
    requires Apart(addr / PAGE_SIZE, size / PAGE_SIZE, text / PAGE_SIZE, textPages) && 0 < addr / PAGE_SIZE && 0 < text / PAGE_SIZE
    ensures PAGE_SIZE <= addr && addr + size <= memory
    ensures PAGE_SIZE <= text && text + PAGE_SIZE * textPages <= memory
    ensures Apart(addr, size, text, PAGE_SIZE * textPages)
  {
  }

  function ImageSize(l: Layout): int {
    USIZE + l.dataSize + l.stackSize
  }

  lemma {:induction false} WholeImage(l: Layout)
    requires l.Aligned()
    ensures ImageSize(l) > 0 && ImageSize(l) % PAGE_SIZE == 0
  {
  }

  /** Where the image lies, clear of page 0 and of the text. */
  predicate Clear(memory: int, p_addr: int, l: Layout, textAddress: int) {
    && PAGE_SIZE <= p_addr && p_addr + ImageSize(l) <= memory
    && Apart(p_addr, ImageSize(l), textAddress, PAGE_SIZE * Pages(l.textSize))
  }

  /** The whole image has been copied to its new place, and the stack then moved up by the growth. */
  lemma {:induction false} GrownRelocated(mem0: seq<byte>, moved: seq<byte>, mem1: seq<byte>, p0: int, p1: int,
                                          l0: Layout, l1: Layout, textAddress: int)
    requires Resized(l0, l1) && Clear(|mem0|, p0, l0, textAddress) && Clear(|mem0|, p1, l1, textAddress)
    requires l1.dataSize >= l0.dataSize && l1.stackSize >= l0.stackSize && 0 <= Pages(l0.textSize)
    requires Moved(mem0, moved, p0, p1, ImageSize(l0))
    requires var src := p1 + USIZE + l0.dataSize; Moved(moved, mem1, src, src + ImageSize(l1) - ImageSize(l0), l0.stackSize)
    ensures Relocated(mem0, p0, l0, mem1, p1, l1, textAddress)
  {
    hide Pages;
  }

  /** The stack has been moved down over the data given up. */
  lemma {:induction false} ShrunkRelocated(mem0: seq<byte>, mem1: seq<byte>, p: int, l0: Layout, l1: Layout, textAddress: int)
    requires Resized(l0, l1) && Clear(|mem0|, p, l0, textAddress) && l1.dataSize <= l0.dataSize && l1.stackSize == l0.stackSize
    requires Moved(mem0, mem1, p + USIZE + l0.dataSize, p + USIZE + l1.dataSize, l0.stackSize) && 0 <= Pages(l0.textSize)
    ensures Relocated(mem0, p, l0, mem1, p, l1, textAddress)
  {
    hide Pages;
  }

  lemma {:induction false} Unmoved(mem0: seq<byte>, p: int, l: Layout, textAddress: int)
    requires l.Aligned() && Clear(|mem0|, p, l, textAddress)
    ensures Relocated(mem0, p, l, mem0, p, l, textAddress)
  {
    hide Pages;
  }

  lemma {:induction false} WholePages(addr: int, oldSize: int, newSize: int)
    requires addr % PAGE_SIZE == 0 && oldSize % PAGE_SIZE == 0 && newSize % PAGE_SIZE == 0
    ensures (addr + newSize) / PAGE_SIZE == addr / PAGE_SIZE + newSize / PAGE_SIZE && (addr + newSize) % PAGE_SIZE == 0
    ensures (oldSize - newSize) / PAGE_SIZE == oldSize / PAGE_SIZE - newSize / PAGE_SIZE && (oldSize - newSize) % PAGE_SIZE == 0
    ensures newSize > 0 ==> newSize / PAGE_SIZE > 0
    ensures newSize <= oldSize ==> newSize / PAGE_SIZE <= oldSize / PAGE_SIZE
    ensures newSize > oldSize ==> newSize / PAGE_SIZE > oldSize / PAGE_SIZE
    ensures addr == addr / PAGE_SIZE * PAGE_SIZE && newSize == newSize / PAGE_SIZE * PAGE_SIZE && oldSize == oldSize / PAGE_SIZE * PAGE_SIZE
  {
  }

  lemma {:induction false} ApartInBytes(at: int, addr: int, oldSize: int, newSize: int)
    requires addr % PAGE_SIZE == 0 && oldSize % PAGE_SIZE == 0 && newSize % PAGE_SIZE == 0 && 0 < oldSize < newSize
    requires Apart(at, newSize / PAGE_SIZE, addr / PAGE_SIZE, oldSize / PAGE_SIZE)
    ensures addr + oldSize <= PAGE_SIZE * at || PAGE_SIZE * at + newSize <= addr
  {
  }
}
