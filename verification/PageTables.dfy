/**
 A user's address space of two page tables: text, data behind it, and the stack at the top. The
 relative table counts pages from the start of the text or of the process image; loading it adds
 where these lie in memory.
 */
module PageTables {
  const PAGE_SIZE := 4096
  const USER_SPACE_SIZE := 0x80_0000
  const ENTRIES := 2048

  datatype Pte = Pte(m_Present: bool, m_ReadWriter: bool, m_PageBaseAddress: int)

  /** Addresses and sizes in bytes. */
  datatype Layout = Layout(text: int, textSize: int, data: int, dataSize: int, stackSize: int) {
    function StackStart(): int {
      (USER_SPACE_SIZE - stackSize) / PAGE_SIZE * PAGE_SIZE
    }

    /** The segments start on pages and do not overlap. */
    predicate Ok() {
      && text % PAGE_SIZE == 0 && data % PAGE_SIZE == 0 && 0 < text && 0 <= textSize && 0 <= dataSize && 0 <= stackSize
      && text + PAGE_SIZE * Pages(textSize) <= data
      && data + PAGE_SIZE * Pages(dataSize) <= StackStart()
    }

    /** Nor does a segment end within a page. */
    predicate Aligned() {
      Ok() && dataSize % PAGE_SIZE == 0 && stackSize % PAGE_SIZE == 0
    }
  }

  function Pages(size: int): int {
    (size + (PAGE_SIZE - 1)) / PAGE_SIZE
  }

  function Cleared(): (t: seq<Pte>)
    ensures |t| == ENTRIES
  {
    seq(ENTRIES, _ => Pte(false, false, 0))
  }

  /** `cnt` entries from `start` on lead to consecutive pages from `idx` on. */
  function WithEntries(t: seq<Pte>, start: int, cnt: int, idx: int, rw: bool): (r: seq<Pte>)
    ensures |r| == |t|
    ensures forall i :: 0 <= i < |t| ==> r[i] == if start <= i < start + cnt then Pte(true, rw, idx + (i - start)) else t[i]
  {
    seq(|t|, i requires 0 <= i < |t| => if start <= i < start + cnt then Pte(true, rw, idx + (i - start)) else t[i])
  }

  /** What `EstablishUserPageTable` builds. */
  function Relative(l: Layout): (t: seq<Pte>)
    ensures |t| == ENTRIES
  {
    var t1 := WithEntries(Cleared(), l.text / PAGE_SIZE, Pages(l.textSize), 0, false);
    var t2 := WithEntries(t1, l.data / PAGE_SIZE, Pages(l.dataSize), 1, true);
    WithEntries(t2, l.StackStart() / PAGE_SIZE, Pages(l.stackSize), 1 + Pages(l.dataSize), true)
  }

  /** What `MapToPageTable` makes of a relative entry; page 0 is always there. */
  predicate LoadedEntry(e: Pte, rel: Pte, i: int, textAddress: int, p_addr: int) {
    if i == 0 then e == Pte(true, true, 0)
    else
      && e.m_Present == rel.m_Present
      && (rel.m_Present ==>
            e == Pte(true, rel.m_ReadWriter,
                     rel.m_PageBaseAddress + (if rel.m_ReadWriter then p_addr else textAddress) / PAGE_SIZE))
  }

  predicate Loaded(hw: seq<Pte>, rel: seq<Pte>, textAddress: int, p_addr: int) {
    |hw| == |rel| == ENTRIES && forall i :: 0 <= i < ENTRIES ==> LoadedEntry(hw[i], rel[i], i, textAddress, p_addr)
  }

  /** The physical address that a user address leads to, or -1. */
  function Phys(hw: seq<Pte>, va: int): int
    requires |hw| == ENTRIES
  {
    if 0 <= va < USER_SPACE_SIZE && hw[va / PAGE_SIZE].m_Present then
      hw[va / PAGE_SIZE].m_PageBaseAddress * PAGE_SIZE + va % PAGE_SIZE
    else -1
  }

  lemma {:induction false} PageOf(start: int, va: int)
    requires 0 <= start <= va && start % PAGE_SIZE == 0
    ensures va / PAGE_SIZE - start / PAGE_SIZE == (va - start) / PAGE_SIZE
    ensures (va - start) / PAGE_SIZE * PAGE_SIZE + va % PAGE_SIZE == va - start
  {
  }

  lemma {:induction false} PagesBound(size: int, off: int)
    requires 0 <= off < size
    ensures 0 <= off / PAGE_SIZE < Pages(size)
  {
  }

  lemma {:induction false} AlignedPages(size: int)
    requires 0 <= size && size % PAGE_SIZE == 0
    ensures Pages(size) * PAGE_SIZE == size && Pages(size) == size / PAGE_SIZE
  {
  }

  /** Where the segments lie in the relative table. */
  lemma {:induction false} RelativeAt(l: Layout, i: int)
    requires l.Ok() && 0 <= i < ENTRIES
    ensures var t, d, s := l.text / PAGE_SIZE, l.data / PAGE_SIZE, l.StackStart() / PAGE_SIZE;
            Relative(l)[i] ==
              if s <= i < s + Pages(l.stackSize) then Pte(true, true, 1 + Pages(l.dataSize) + (i - s))
              else if d <= i < d + Pages(l.dataSize) then Pte(true, true, 1 + (i - d))
              else if t <= i < t + Pages(l.textSize) then Pte(true, false, i - t)
              else Pte(false, false, 0)
  {
  }

  lemma {:induction false} DataPhys(hw: seq<Pte>, l: Layout, textAddress: int, p_addr: int, off: int)
    requires l.Ok() && Loaded(hw, Relative(l), textAddress, p_addr) && p_addr % PAGE_SIZE == 0
    requires 0 <= off < l.dataSize
    ensures 0 <= l.data + off < USER_SPACE_SIZE
    ensures Phys(hw, l.data + off) == p_addr + PAGE_SIZE + off
  {
    hide Relative;
    var i := (l.data + off) / PAGE_SIZE;
    PageOf(l.data, l.data + off);
    PagesBound(l.dataSize, off);
    RelativeAt(l, i);
    assert LoadedEntry(hw[i], Relative(l)[i], i, textAddress, p_addr);
  }

  lemma {:induction false} StackPhys(hw: seq<Pte>, l: Layout, textAddress: int, p_addr: int, off: int)
    requires l.Aligned() && Loaded(hw, Relative(l), textAddress, p_addr) && p_addr % PAGE_SIZE == 0
    requires 0 <= off < l.stackSize
    ensures l.StackStart() == USER_SPACE_SIZE - l.stackSize
    ensures Phys(hw, l.StackStart() + off) == p_addr + PAGE_SIZE + l.dataSize + off
  {
    hide Relative;
    AlignedPages(l.dataSize);
    var i := (l.StackStart() + off) / PAGE_SIZE;
    PageOf(l.StackStart(), l.StackStart() + off);
    PagesBound(l.stackSize, off);
    RelativeAt(l, i);
    assert LoadedEntry(hw[i], Relative(l)[i], i, textAddress, p_addr);
  }

  lemma {:induction false} TextPhys(hw: seq<Pte>, l: Layout, textAddress: int, p_addr: int, off: int)
    requires l.Ok() && Loaded(hw, Relative(l), textAddress, p_addr) && textAddress % PAGE_SIZE == 0
    requires 0 <= off < PAGE_SIZE * Pages(l.textSize)
    ensures 0 <= l.text + off < USER_SPACE_SIZE
    ensures Phys(hw, l.text + off) == textAddress + off
  {
    hide Relative;
    var i := (l.text + off) / PAGE_SIZE;
    PageOf(l.text, l.text + off);
    RelativeAt(l, i);
    assert LoadedEntry(hw[i], Relative(l)[i], i, textAddress, p_addr);
  }

  /** Where a mapped address can lie. */
  datatype Segment = Zero | Text | Data | Stack | Nowhere

  function SegmentOf(l: Layout, va: int): Segment {
    if 0 <= va < PAGE_SIZE then Zero
    else if l.text <= va < l.text + PAGE_SIZE * Pages(l.textSize) then Text
    else if l.data <= va < l.data + l.dataSize then Data
    else if l.StackStart() <= va < USER_SPACE_SIZE then Stack
    else Nowhere
  }

  lemma {:induction false} NowhereUnmapped(hw: seq<Pte>, l: Layout, textAddress: int, p_addr: int, va: int)
    requires l.Aligned() && Loaded(hw, Relative(l), textAddress, p_addr)
    requires SegmentOf(l, va) == Nowhere
    ensures Phys(hw, va) == -1
  {
    hide Relative;
    if 0 <= va < USER_SPACE_SIZE {
      var i := va / PAGE_SIZE;
      AlignedPages(l.dataSize);
      AlignedPages(l.stackSize);
      RelativeAt(l, i);
      assert LoadedEntry(hw[i], Relative(l)[i], i, textAddress, p_addr);
    }
  }

  lemma {:induction false} ZeroPage(hw: seq<Pte>, l: Layout, textAddress: int, p_addr: int, va: int)
    requires Loaded(hw, Relative(l), textAddress, p_addr) && 0 <= va < PAGE_SIZE
    ensures Phys(hw, va) == va
  {
    assert LoadedEntry(hw[0], Relative(l)[0], 0, textAddress, p_addr);
  }
}
