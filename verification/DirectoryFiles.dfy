/** Directory files: searching, entering and removing names in an inode's bytes. */
module DirectoryFiles {
  import opened Sequences
  import opened Words
  import opened IndexTree
  import opened BlockMap
  import opened FileBytes
  import opened FileSystems
  import opened Inodes
  import opened Directories

  /** A directory in good order: whole entries, no holes, no name in use twice. */
  ghost predicate DirectoryOk(st: Store, c: seq<byte>) {
    |c| % ENTRY_SIZE == 0 && Mapped(st, 0, |c|) && UniqueNames(Entries(c))
  }

  ghost predicate IsDirectory(dir: Inode)
    reads dir, dir.i_addr, dir.fs, dir.fs.s_free
  {
    dir.Valid() && DirectoryOk(dir.St(), dir.Bytes())
  }

  /** A directory that can be searched without allocating a block. */
  ghost predicate HoleFree(dir: Inode)
    reads dir, dir.i_addr, dir.fs, dir.fs.s_free
  {
    dir.Valid() && Mapped(dir.St(), 0, |dir.Bytes()|)
  }

  /** `buf` is the block of the directory that byte `offset` lies in. */
  ghost predicate InBlock(st: Store, offset: int, buf: Block) {
    0 <= offset && var v := st.At(LeafSlot(offset / BLOCK_SIZE)); 0 < v < |st.disk| && buf == st.disk[v]
  }

  lemma MappedBlock(st: Store, offset: int, size: int)
    requires st.Ok() && Mapped(st, 0, size) && 0 <= offset < size <= MAX_FILE_SIZE
    ensures offset / BLOCK_SIZE < HUGE_FILE_BLOCK
    ensures st.Missing(LeafSlot(offset / BLOCK_SIZE)) == 0 && Ensure(st, LeafSlot(offset / BLOCK_SIZE)) == st
    ensures 0 < st.At(LeafSlot(offset / BLOCK_SIZE)) < |st.disk|
  {
    hide LeafSlot;
    var s := LeafSlot(offset / BLOCK_SIZE);
    MissesNothing(st, s);
    EnsureInPlace(st, s);
    InUse(st, s);
  }

  /** Entries never straddle two blocks. */
  lemma EntryBounds(k: int, size: int)
    requires 0 <= k < size / ENTRY_SIZE
    ensures ENTRY_SIZE * k + ENTRY_SIZE <= size
    ensures (ENTRY_SIZE * k) % BLOCK_SIZE + ENTRY_SIZE <= BLOCK_SIZE
    ensures (ENTRY_SIZE * (k + 1)) % BLOCK_SIZE != 0 ==> ENTRY_SIZE * (k + 1) / BLOCK_SIZE == ENTRY_SIZE * k / BLOCK_SIZE
  {
  }

  lemma EntryInBlock(st: Store, k: int, size: int, buf: Block)
    requires st.Ok() && InBlock(st, ENTRY_SIZE * k, buf) && 0 <= k < size / ENTRY_SIZE && size <= MAX_FILE_SIZE
    ensures var within := (ENTRY_SIZE * k) % BLOCK_SIZE;
            && within + ENTRY_SIZE <= BLOCK_SIZE
            && Decode(buf[within..within + ENTRY_SIZE]) == Entries(Content(st.addr, st.disk, size))[k]
    ensures (ENTRY_SIZE * (k + 1)) % BLOCK_SIZE != 0 ==> InBlock(st, ENTRY_SIZE * (k + 1), buf)
  {
    hide LeafSlot, TreeOk, Decode, Val;
    EntryBounds(k, size);
    BlockWindow(st, ENTRY_SIZE * k, ENTRY_SIZE, size);
  }

  lemma ContentOf(dir: Inode)
    requires dir.Valid()
    ensures dir.Bytes() == Content(dir.St().addr, dir.St().disk, dir.i_size) && dir.St().Ok()
    ensures |dir.Bytes()| == dir.i_size <= MAX_FILE_SIZE
  {
  }

  /** Byte by byte comparison. */
  method SameName(a: Name, b: Name) returns (same: bool)
    ensures same <==> a == b
  {
    var i := 0;
    while i < DIRSIZ
      invariant 0 <= i <= DIRSIZ && a[..i] == b[..i]
    {
      if a[i] != b[i] {
        return false;
      }
      i := i + 1;
    }
    assert a == a[..i] && b == b[..i];
    return true;
  }

  /** Reads the block of the directory that `offset` lies in. */
  method LoadBlock(dir: Inode, offset: int) returns (buf: Block)
    requires HoleFree(dir) && 0 <= offset < dir.i_size
    modifies dir.i_addr, dir.fs, dir.fs.s_free
    ensures dir.Valid() && dir.St() == old(dir.St())
    ensures InBlock(dir.St(), offset, buf)
  {
    hide UniqueNames, Entries, TreeOk, Apart, TailZero, FileSystem.Valid, FileSystem.FreeBlocks, LeafSlot, Content, Mapped;
    ContentOf(dir);
    MappedBlock(dir.St(), offset, dir.i_size);
    var phyBlkno, error := dir.MapBlock(offset / BLOCK_SIZE);
    buf := dir.fs.Bread(phyBlkno);
  }

  /**
   The search for a name through a whole directory. On success `u_dent` is the entry found and
   `m_Offset` the place behind it; otherwise `freeEntryOffset` is the place behind the first free
   entry, or 0.
   */
  method Search(dir: Inode, u_dbuf: Name) returns (found: bool, u_dent: DirectoryEntry, m_Offset: int, freeEntryOffset: int)
    requires HoleFree(dir)
    modifies dir.i_addr, dir.fs, dir.fs.s_free
    ensures dir.Valid() && dir.St() == old(dir.St()) && dir.Bytes() == old(dir.Bytes())
    ensures var es := Entries(dir.Bytes());
            var k := Find(es, u_dbuf);
            && (found <==> k < |es|)
            && (found ==> u_dent == es[k] && m_Offset == ENTRY_SIZE * (k + 1))
            && (!found ==> m_Offset == ENTRY_SIZE * |es|
                           && freeEntryOffset == if FirstFree(es) < |es| then ENTRY_SIZE * (FirstFree(es) + 1) else 0)
  {
    hide UniqueNames, LeafSlot, Content, Mapped, Find, FirstFree, Decode, InBlock, Store.Ok, Inode.Valid, Inode.Bytes, Inode.St;
    ContentOf(dir);
    ghost var c, st, k := dir.Bytes(), dir.St(), 0;
    ghost var es := Entries(c);
    var m_Count := dir.i_size / ENTRY_SIZE;
    var buf := ZeroBlock();
    found, u_dent, m_Offset, freeEntryOffset := false, DirectoryEntry(0, u_dbuf), 0, 0;
    while m_Count != 0
      invariant dir.Valid() && dir.St() == st && dir.Bytes() == c
      invariant 0 <= k <= |es| && m_Count == |es| - k && m_Offset == ENTRY_SIZE * k
      invariant forall i :: 0 <= i < k ==> es[i].ino == 0 || es[i].name != u_dbuf
      invariant freeEntryOffset == if FirstFree(es) < k then ENTRY_SIZE * (FirstFree(es) + 1) else 0
      invariant m_Offset % BLOCK_SIZE != 0 && m_Count != 0 ==> InBlock(st, m_Offset, buf)
      decreases m_Count
    {
      EntryBounds(k, |c|);
      if m_Offset % BLOCK_SIZE == 0 {
        buf := LoadBlock(dir, m_Offset);
        ContentOf(dir);
      }
      EntryInBlock(st, k, |c|, buf);
      u_dent := Decode(buf[m_Offset % BLOCK_SIZE..m_Offset % BLOCK_SIZE + ENTRY_SIZE]);
      m_Offset := m_Offset + ENTRY_SIZE;
      m_Count := m_Count - 1;
      k := k + 1;
      if u_dent.ino == 0 {
        if freeEntryOffset == 0 {
          freeEntryOffset := m_Offset;
        }
        continue;
      }
      var same := SameName(u_dbuf, u_dent.name);
      if same {
        FindIs(es, u_dbuf, k - 1);
        return true, u_dent, m_Offset, freeEntryOffset;
      }
    }
    FindIs(es, u_dbuf, |es|);
  }

  /** Entry `k` replaced, or `e` appended if `k` is the number of entries. */
  function Written(es: seq<DirectoryEntry>, k: int, e: DirectoryEntry): seq<DirectoryEntry>
    requires 0 <= k <= |es|
  {
    if k < |es| then es[k := e] else es + [e]
  }

  lemma WholeEntries(c: seq<byte>, k: int, e: DirectoryEntry)
    requires |c| % ENTRY_SIZE == 0 && 0 <= k <= |c| / ENTRY_SIZE && 0 <= e.ino < WORD_LIMIT
    ensures var d := Overlay(c, ENTRY_SIZE * k, Encode(e));
            |d| % ENTRY_SIZE == 0 && |d| == Max(|c|, ENTRY_SIZE * (k + 1)) && ENTRY_SIZE * k <= |c|
  {
  }

  lemma MappedTogether(st: Store, to: int, from: int, end: int)
    requires Mapped(st, 0, to) && Mapped(st, from, end) && 0 <= from <= to && from < end
    ensures Mapped(st, 0, Max(to, end))
  {
    hide LeafSlot, Val;
  }

  /** An entry already there lies in a block already there. */
  lemma {:induction false} RoomForEntry(st: Store, k: int, size: int)
    requires st.Ok() && 0 <= k < size / ENTRY_SIZE && size % ENTRY_SIZE == 0 && size <= MAX_FILE_SIZE
    requires Mapped(st, 0, size)
    ensures Room(st, ENTRY_SIZE * k, ENTRY_SIZE * k + ENTRY_SIZE)
  {
    hide LeafSlot, Val, TreeOk, Apart, Mapped, LastBlock, Ensure;
    var from := ENTRY_SIZE * k;
    EntryBounds(k, size);
    MappedBlock(st, from, size);
    OneBlock(from, ENTRY_SIZE);
    var lbn := from / BLOCK_SIZE;
    assert Suffices(Ensure(st, LeafSlot(lbn)), lbn + 1, lbn + 1);
    assert Suffices(st, lbn, lbn + 1);
  }

  /** The directory may grow by one entry, and the free blocks suffice for it. */
  ghost predicate CanGrow(dir: Inode)
    reads dir, dir.i_addr, dir.fs, dir.fs.s_free
  {
    dir.i_size + ENTRY_SIZE <= MAX_FILE_SIZE && Room(dir.St(), dir.i_size, dir.i_size + ENTRY_SIZE)
  }

  /** Writes an entry over entry `k`, or behind the last. */
  method WriteEntry(dir: Inode, u_dent: DirectoryEntry, m_Offset: int, ghost k: int)
    requires IsDirectory(dir) && 0 <= u_dent.ino < WORD_LIMIT
    requires 0 <= k <= |dir.Bytes()| / ENTRY_SIZE && m_Offset == ENTRY_SIZE * k
    requires k == |dir.Bytes()| / ENTRY_SIZE ==> CanGrow(dir)
    modifies dir, dir.i_addr, dir.fs, dir.fs.s_free
    ensures dir.Valid() && KeepsOutside(old(dir.St()), dir.St())
    ensures |dir.Bytes()| % ENTRY_SIZE == 0 && Mapped(dir.St(), 0, |dir.Bytes()|)
    ensures Entries(dir.Bytes()) == Written(Entries(old(dir.Bytes())), k, u_dent)
  {
    hide UniqueNames, LeafSlot, Content, Mapped, Encode, Overlay, Room, Store.Ok, Inode.Valid, Inode.Bytes, Inode.St,
         KeepsOutside, KeepsMapping;
    ContentOf(dir);
    ghost var c, st := dir.Bytes(), dir.St();
    if k < |c| / ENTRY_SIZE {
      RoomForEntry(st, k, |c|);
    }
    WholeEntries(c, k, u_dent);
    var data := Encode(u_dent);
    var offset, count, error := dir.WriteI(m_Offset, data);
    assert data[..|data|] == data;
    EntriesOfOverlay(c, k, u_dent);
    MappedKept(st, dir.St(), 0, |c|);
    MappedTogether(dir.St(), |c|, m_Offset, offset);
  }

  /** What `creat` does to the directory: the search and, unless the name is there, `WriteDir`. */
  method Create(dir: Inode, name: Name, ino: int) returns (existing: int)
    requires IsDirectory(dir) && 0 < ino < WORD_LIMIT
    requires var es := Entries(dir.Bytes());
             Find(es, name) == FirstFree(es) == |es| ==> CanGrow(dir)
    modifies dir, dir.i_addr, dir.fs, dir.fs.s_free
    ensures IsDirectory(dir) && KeepsOutside(old(dir.St()), dir.St())
    ensures var m := DirMap(Entries(old(dir.Bytes())));
            if name in m then existing == m[name] && dir.Bytes() == old(dir.Bytes())
            else existing == 0 && DirMap(Entries(dir.Bytes())) == m[name := ino]
  {
    hide UniqueNames, Entries, Mapped, Find, FirstFree, DirMap, Store.Ok, Inode.Valid, Inode.Bytes, Inode.St;
    ghost var c, st := dir.Bytes(), dir.St();
    ghost var es := Entries(c);
    var found, u_dent, m_Offset, freeEntryOffset := Search(dir, name);
    SameOutside(st);
    if found {
      return u_dent.ino;
    }
    if freeEntryOffset != 0 {
      m_Offset := freeEntryOffset - ENTRY_SIZE;
    }
    u_dent := DirectoryEntry(ino, name);
    CreateAddsBinding(es, u_dent);
    WriteEntry(dir, u_dent, m_Offset, FirstFree(es));
    existing := 0;
  }

  /** Takes a name out of the directory; `ino` is the number it had, 0 if it was not there. */
  method UnLink(dir: Inode, name: Name) returns (ino: int)
    requires IsDirectory(dir)
    modifies dir, dir.i_addr, dir.fs, dir.fs.s_free
    ensures IsDirectory(dir) && KeepsOutside(old(dir.St()), dir.St())
    ensures var m := DirMap(Entries(old(dir.Bytes())));
            && ino == (if name in m then m[name] else 0)
            && DirMap(Entries(dir.Bytes())) == m - {name}
  {
    hide UniqueNames, Entries, Mapped, Find, FirstFree, DirMap, Store.Ok, Inode.Valid, Inode.Bytes, Inode.St;
    ghost var c, st := dir.Bytes(), dir.St();
    ghost var es := Entries(c);
    UnlinkRemovesBinding(es, name);
    SameOutside(st);
    var found, u_dent, m_Offset, freeEntryOffset := Search(dir, name);
    if !found {
      return 0;
    }
    ino := u_dent.ino;
    m_Offset := m_Offset - ENTRY_SIZE;
    u_dent := u_dent.(ino := 0);
    WriteEntry(dir, u_dent, m_Offset, Find(es, name));
  }

  lemma SameOutside(st: Store)
    ensures KeepsOutside(st, st)
  {
  }
}
