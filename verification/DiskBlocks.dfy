/** How the debuggers find a file's blocks on the disk, without allocating any, and search a directory in them. */
module DiskBlocks {
  import opened Words
  import opened IndexTree
  import opened BlockMap
  import opened FileBytes
  import opened Directories
  import opened DirectoryFiles
  import opened Paths

  function MapDiskInodeBlock(addr: seq<int>, disk: seq<Block>, lbn: int): int
    requires |addr| == 10
  {
    if lbn < 0 || lbn >= HUGE_FILE_BLOCK then 0
    else if lbn < SMALL_FILE_BLOCK then addr[lbn]
    else
      var index := if lbn < LARGE_FILE_BLOCK then (lbn - SMALL_FILE_BLOCK) / 128 + 6
                   else (lbn - LARGE_FILE_BLOCK) / (128 * 128) + 8;
      var first := addr[index];
      var table := if index >= 8 then ReadWord(disk, first, (lbn - LARGE_FILE_BLOCK) / 128 % 128) else first;
      var leaf := if lbn < LARGE_FILE_BLOCK then (lbn - SMALL_FILE_BLOCK) % 128 else (lbn - LARGE_FILE_BLOCK) % 128;
      ReadWord(disk, table, leaf)
  }

  /** It names the block that the kernel's index names, 0 for a hole, and what `Bmap` returns for any mapped block. */
  lemma DebuggerMapsLikeTheKernel(st: Store, lbn: int)
    requires st.Ok() && 0 <= lbn < HUGE_FILE_BLOCK
    ensures MapDiskInodeBlock(st.addr, st.disk, lbn) == st.At(LeafSlot(lbn))
    ensures st.At(LeafSlot(lbn)) != 0 && st.Missing(LeafSlot(lbn)) <= |st.stack| ==>
              Ensure(st, LeafSlot(lbn)).At(LeafSlot(lbn)) == MapDiskInodeBlock(st.addr, st.disk, lbn)
  {
    hide TreeOk, Apart, Fill;
    if lbn >= SMALL_FILE_BLOCK {
      LeafPath(lbn);
      var leaf := LeafSlot(lbn);
      assert st.At(leaf) == ReadWord(st.disk, st.At(leaf.Parent()), leaf.Index());
      assert leaf.Deep? ==> st.At(leaf.Parent()) == ReadWord(st.disk, st.At(Root(leaf.i)), leaf.j);
      assert st.At(Root(leaf.i)) == st.addr[leaf.i];
    }
  }

  /** The sector that the debugger computes for an entry holds it where the debugger looks. */
  lemma {:induction false} SectorHoldsEntry(st: Store, size: int, k: int)
    requires st.Ok() && 0 <= k < size / ENTRY_SIZE && size <= MAX_FILE_SIZE
    requires MapDiskInodeBlock(st.addr, st.disk, ENTRY_SIZE * k / BLOCK_SIZE) != 0
    ensures var within := ENTRY_SIZE * k % BLOCK_SIZE;
            var sector := MapDiskInodeBlock(st.addr, st.disk, ENTRY_SIZE * k / BLOCK_SIZE);
            && 0 < sector < |st.disk| && within + ENTRY_SIZE <= BLOCK_SIZE
            && Decode(st.disk[sector][within..within + ENTRY_SIZE]) == Entries(Content(st.addr, st.disk, size))[k]
  {
    hide LeafSlot, TreeOk, Apart, Content, MapDiskInodeBlock, Decode, Val;
    EntryBounds(k, size);
    var lbn := ENTRY_SIZE * k / BLOCK_SIZE;
    assert 0 <= lbn < HUGE_FILE_BLOCK;
    DebuggerMapsLikeTheKernel(st, lbn);
    InUse(st, LeafSlot(lbn));
    EntryInBlock(st, k, size, st.disk[st.At(LeafSlot(lbn))]);
  }

  /** A directory without holes has a sector for every entry. */
  lemma {:induction false} SectorForEntry(st: Store, size: int, k: int)
    requires st.Ok() && 0 <= k < size / ENTRY_SIZE && size <= MAX_FILE_SIZE && Mapped(st, 0, size)
    ensures MapDiskInodeBlock(st.addr, st.disk, ENTRY_SIZE * k / BLOCK_SIZE) != 0
  {
    hide LeafSlot, TreeOk, Apart, Mapped, MapDiskInodeBlock;
    EntryBounds(k, size);
    MappedBlock(st, ENTRY_SIZE * k, size);
    DebuggerMapsLikeTheKernel(st, ENTRY_SIZE * k / BLOCK_SIZE);
  }

  /**
   The loop of `LookupPath` and `lookup_disk_path` over one directory, entry by entry and sector by
   sector: what it finds is what a search of the directory's contents finds, and it fails only on a hole.
   */
  method SearchSectors(addr: seq<int>, disk: seq<Block>, size: int, component: Text, ghost stack: seq<int>)
    returns (failed: bool, k: int)
    requires Store(addr, disk, stack).Ok() && 0 <= size <= MAX_FILE_SIZE && |component| <= DIRSIZ
    ensures failed ==> !Mapped(Store(addr, disk, stack), 0, size)
    ensures !failed ==> k == Find(Entries(Content(addr, disk, size)), Pad(component))
  {
    hide MapDiskInodeBlock, Mapped, Content, Decode, Find, Pad, TreeOk, Apart;
    ghost var st, es := Store(addr, disk, stack), Entries(Content(addr, disk, size));
    k := 0;
    while k < size / ENTRY_SIZE
      invariant 0 <= k <= |es| == size / ENTRY_SIZE
      invariant forall i :: 0 <= i < k ==> es[i].ino == 0 || es[i].name != Pad(component)
    {
      var offset := k * ENTRY_SIZE;
      var sector := MapDiskInodeBlock(addr, disk, offset / BLOCK_SIZE);
      if sector == 0 {
        assert !Mapped(st, 0, size) by {
          if Mapped(st, 0, size) {
            SectorForEntry(st, size, k);
          }
        }
        return true, k;
      }
      SectorHoldsEntry(st, size, k);
      var entry := Decode(disk[sector][offset % BLOCK_SIZE..offset % BLOCK_SIZE + ENTRY_SIZE]);
      var same := NameEquals(entry.name, component);
      if entry.ino != 0 && same {
        FindIs(es, Pad(component), k);
        return false, k;
      }
      k := k + 1;
    }
    FindIs(es, Pad(component), k);
    failed := false;
  }
}
