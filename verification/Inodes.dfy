/** In-memory inodes: mapping, reading, writing and truncating a regular file or directory. */
module Inodes {
  import opened Sequences
  import opened Words
  import opened FreeList
  import opened IndexTree
  import opened BlockMap
  import opened FileBytes
  import opened FileSystems
  import opened Truncation

  datatype Error = NoError | EFBIG

  /** Recording the top free block in a held, possibly unwritten table block is an attachment. */
  lemma AttachHeld(st: Store, disk: seq<Block>, held: int, buf: Block, s: Slot)
    requires st.Ok() && s.Valid() && !s.Root? && st.At(s) == 0 && st.stack != []
    requires held == st.At(s.Parent()) && 0 < held < |disk| && st.disk == disk[held := buf]
    ensures 0 < st.Top() < |st.disk| && st.Top() != held
    ensures Word(buf, s.Index()) == 0
    ensures st.Attach(s).disk == disk[held := PutWord(buf, s.Index(), st.Top())][st.Top() := ZeroBlock()]
  {
    AttachFacts(st, s);
    assert held !in st.stack;
    assert st.Top() in st.stack;
  }

  lemma NoBlocks(st: Store)
    requires st.addr == seq(10, _ => 0) && 0 < |st.disk| <= WORD_LIMIT
    requires Distinct(st.stack) && InDisk(st.stack, st.disk)
    ensures st.Ok() && TailZero(st.addr, st.disk, 0)
  {
    forall s: Slot | s.Valid() ensures st.At(s) == 0 {
      assert st.At(Root(s.i)) == 0;
      if s.Deep? {
        assert st.At(s.Parent()) == 0;
      }
    }
  }

  class Inode {
    const fs: FileSystem
    const i_addr: array<int>
    var i_size: int

    ghost function St(): Store
      reads this, i_addr, fs, fs.s_free
    {
      Store(i_addr[..], fs.disk, fs.FreeBlocks())
    }

    ghost predicate Valid()
      reads this, i_addr, fs, fs.s_free
    {
      && i_addr.Length == 10 && i_addr != fs.s_free
      && fs.Valid()
      && St().Ok()
      && 0 <= i_size <= MAX_FILE_SIZE
      && TailZero(i_addr[..], fs.disk, i_size)
    }

    ghost function Bytes(): (c: seq<byte>)
      reads this, i_addr, fs, fs.s_free
      ensures |c| == Max(0, i_size)
    {
      if i_size < 0 then [] else Content(i_addr[..], fs.disk, i_size)
    }

    /** An inode with no blocks and no bytes. */
    constructor (fs: FileSystem)
      requires fs.Valid()
      ensures Valid() && this.fs == fs && fresh(i_addr) && Bytes() == []
    {
      this.fs := fs;
      i_addr := new int[10](_ => 0);
      i_size := 0;
      new;
      NoBlocks(St());
    }

    // Bmap, one table at a time.

    /**
     The buffer of an index block in hand: the file looks like `cur` once that buffer is written, and
     it differs from what is on disk only if the block is new, in which case its table is empty.
     */
    ghost predicate Held(cur: Store, s: Slot, blk: int, buf: Block)
      reads this, i_addr, fs, fs.s_free
    {
      && i_addr.Length == 10 && i_addr != fs.s_free && fs.Valid()
      && cur.Ok() && s.Valid() && !s.NamesData()
      && i_addr[..] == cur.addr && fs.FreeBlocks() == cur.stack
      && 0 < blk < |fs.disk| && cur.At(s) == blk && blk !in cur.stack
      && cur.disk == fs.disk[blk := buf]
      && (buf == ZeroBlock() || buf == fs.disk[blk])
    }

    /** The block in `i_addr[index]`, allocated and recorded if there is none. */
    method RootTable(index: int) returns (blk: int, buf: Block)
      requires i_addr.Length == 10 && i_addr != fs.s_free && fs.Valid() && St().Ok() && 6 <= index < 10
      requires St().Missing(Root(index)) <= |fs.FreeBlocks()|
      modifies i_addr, fs`s_nfree, fs.s_free, fs`spine
      ensures Held(Ensure(old(St()), Root(index)), Root(index), blk, buf)
    {
      hide TreeOk, Apart, Distinct, InDisk, Val, FileSystem.Valid, FileSystem.FreeBlocks;
      ghost var st := St();
      RootWord(st, index);
      blk := i_addr[index];
      if blk == 0 {
        AttachFacts(st, Root(index));
        blk, buf := fs.Alloc();
        i_addr[index] := blk;
      } else {
        InUse(st, Root(index));
        buf := fs.Bread(blk);
      }
    }

    /** The table named by entry `index` of the table in hand, which is written back if the entry is new. */
    method NextTable(first: int, firstBuf: Block, index: int, ghost cur: Store, ghost s: Slot)
      returns (blk: int, buf: Block)
      requires s.Valid() && s.Entry? && s.i >= 8 && s.j == index && Held(cur, s.Parent(), first, firstBuf)
      requires cur.At(s) == 0 ==> cur.stack != []
      modifies fs, fs.s_free
      ensures Held(Fill(cur, s), s, blk, buf)
    {
      hide TreeOk, Apart, Distinct, InDisk, Val, FileSystem.Valid, FileSystem.FreeBlocks;
      TableWord(cur, s);
      blk := Word(firstBuf, index);
      if blk == 0 {
        AttachHeld(cur, fs.disk, first, firstBuf, s);
        AttachFacts(cur, s);
        blk, buf := fs.Alloc();
        fs.Write(first, PutWord(firstBuf, index, blk));
      } else {
        InUse(cur, s);
        ZeroWord(index);
        buf := fs.Bread(blk);
      }
    }

    /** A new data block for entry `index` of the table in hand; both are written. */
    method NewDataBlock(first: int, firstBuf: Block, index: int, ghost cur: Store, ghost s: Slot)
      returns (blk: int, table: Block)
      requires s.Valid() && !s.Root? && s.NamesData() && s.Index() == index && Held(cur, s.Parent(), first, firstBuf)
      requires cur.At(s) == 0 && cur.stack != []
      modifies fs, fs.s_free
      ensures fs.Valid() && St() == Fill(cur, s)
      ensures blk == St().At(s)
      ensures 0 < first < |fs.disk| && table == fs.disk[first]
    {
      hide TreeOk, Apart, Distinct, InDisk, Val, FileSystem.Valid, FileSystem.FreeBlocks;
      AttachHeld(cur, fs.disk, first, firstBuf, s);
      AttachFacts(cur, s);
      var buf;
      blk, buf := fs.Alloc();
      table := PutWord(firstBuf, index, blk);
      fs.Write(blk, buf);
      fs.Write(first, table);
    }

    /** The data block named by entry `index` of the table in hand. */
    method DataBlock(first: int, firstBuf: Block, index: int, ghost cur: Store, ghost s: Slot)
      returns (blk: int, table: Block)
      requires s.Valid() && !s.Root? && s.NamesData() && s.Index() == index && Held(cur, s.Parent(), first, firstBuf)
      requires cur.At(s) == 0 ==> cur.stack != []
      modifies fs, fs.s_free
      ensures fs.Valid()
      ensures St() == Fill(cur, s)
      ensures blk == St().At(s)
      ensures 0 < first < |fs.disk| && table == fs.disk[first]
    {
      hide TreeOk, Apart, Distinct, InDisk, Val, FileSystem.Valid, FileSystem.FreeBlocks;
      TableWord(cur, s);
      blk := Word(firstBuf, index);
      table := firstBuf;
      if blk == 0 {
        blk, table := NewDataBlock(first, firstBuf, index, cur, s);
      } else {
        ZeroWord(index);
      }
    }

    /** Blocks 0 to 5 are named by the inode itself. */
    method DirectBlock(lbn: int) returns (phyBlkno: int, rablock: int)
      requires i_addr.Length == 10 && i_addr != fs.s_free && fs.Valid() && St().Ok()
      requires 0 <= lbn < 6 && St().Missing(LeafSlot(lbn)) <= |fs.FreeBlocks()|
      modifies i_addr, fs, fs.s_free
      ensures fs.Valid()
      ensures St() == Ensure(old(St()), LeafSlot(lbn))
      ensures phyBlkno == St().At(LeafSlot(lbn))
      ensures rablock == Ahead(St(), lbn)
    {
      hide TreeOk, Apart, Distinct, InDisk, Val, FileSystem.Valid, FileSystem.FreeBlocks;
      ghost var st := St();
      RootWord(st, lbn);
      phyBlkno, rablock := i_addr[lbn], 0;
      if phyBlkno == 0 {
        AttachFacts(st, Root(lbn));
        var buf;
        phyBlkno, buf := fs.Alloc();
        fs.Write(phyBlkno, buf);
        i_addr[lbn] := phyBlkno;
      }
      if lbn <= 4 {
        RootWord(St(), lbn + 1);
        rablock := i_addr[lbn + 1];
      }
    }

    /** The table that names block `lbn`, reached from the inode through one or two entries. */
    method LastTable(lbn: int) returns (blk: int, buf: Block, index: int)
      requires i_addr.Length == 10 && i_addr != fs.s_free && fs.Valid() && St().Ok()
      requires 6 <= lbn < HUGE_FILE_BLOCK && St().Missing(LeafSlot(lbn).Parent()) <= |fs.FreeBlocks()|
      modifies i_addr, fs, fs.s_free
      ensures Held(Ensure(old(St()), LeafSlot(lbn).Parent()), LeafSlot(lbn).Parent(), blk, buf)
      ensures index == LeafSlot(lbn).Index()
    {
      hide TreeOk, Apart, Distinct, InDisk, Val, FileSystem.Valid, FileSystem.FreeBlocks, LeafSlot, OnPath;
      LeafPath(lbn);
      ghost var st := St();
      ghost var leaf := LeafSlot(lbn);
      if lbn < LARGE_FILE_BLOCK {
        index := (lbn - SMALL_FILE_BLOCK) / 128 + 6;
        blk, buf := RootTable(index);
        index := (lbn - SMALL_FILE_BLOCK) % 128;
      } else {
        index := (lbn - LARGE_FILE_BLOCK) / (128 * 128) + 8;
        ghost var cur := Ensure(st, Root(index));
        blk, buf := RootTable(index);
        index := (lbn - LARGE_FILE_BLOCK) / 128 % 128;
        blk, buf := NextTable(blk, buf, index, cur, leaf.Parent());
        index := (lbn - LARGE_FILE_BLOCK) % 128;
      }
    }

    /**
     Physical block of logical block `lbn`, allocated with its index blocks if missing. `rablock` is
     the block that follows when the same table already shows it, else 0.
     */
    method Bmap(lbn: int) returns (phyBlkno: int, rablock: int, error: Error)
      requires i_addr.Length == 10 && i_addr != fs.s_free && fs.Valid() && St().Ok()
      requires 0 <= lbn
      requires lbn < HUGE_FILE_BLOCK ==> St().Missing(LeafSlot(lbn)) <= |fs.FreeBlocks()|
      modifies i_addr, fs, fs.s_free
      ensures fs.Valid()
      ensures lbn >= HUGE_FILE_BLOCK ==> error == EFBIG && phyBlkno == 0 && St() == old(St())
      ensures lbn < HUGE_FILE_BLOCK ==>
        && error == NoError
        && St() == Ensure(old(St()), LeafSlot(lbn))
        && phyBlkno == St().At(LeafSlot(lbn))
        && rablock == Ahead(St(), lbn)
    {
      hide TreeOk, Apart, Distinct, InDisk, Val, FileSystem.Valid, FileSystem.FreeBlocks,
           LeafSlot, OnPath, Ensure, Fill, Ahead;
      phyBlkno, rablock, error := 0, 0, NoError;
      if lbn >= HUGE_FILE_BLOCK {
        error := EFBIG;
        return;
      }
      if lbn < 6 {
        phyBlkno, rablock := DirectBlock(lbn);
        return;
      }
      ghost var leaf := LeafSlot(lbn);
      LeafPath(lbn);
      EnsureStep(St(), leaf);
      ghost var cur := Ensure(St(), leaf.Parent());
      var blk, buf, index := LastTable(lbn);
      phyBlkno, buf := DataBlock(blk, buf, index, cur, leaf);
      if index + 1 < 128 {
        rablock := Word(buf, index + 1);
      }
      AheadInTable(St(), lbn, buf);
    }

    /** Stores `chunk`, which lies within block `bn`; a whole block need not be read first. */
    method StoreChunk(bn: int, offset: int, chunk: seq<byte>)
      requires Valid() && 0 <= offset && chunk != []
      requires offset % BLOCK_SIZE + |chunk| <= BLOCK_SIZE && offset + |chunk| <= MAX_FILE_SIZE
      requires bn == St().At(LeafSlot(offset / BLOCK_SIZE)) != 0
      modifies `i_size, fs`disk
      ensures Valid() && fs.FreeBlocks() == old(fs.FreeBlocks())
      ensures Bytes() == Overlay(old(Bytes()), offset, chunk)
      ensures KeepsOutside(old(St()), St())
      ensures forall s: Slot :: s.Valid() ==> St().At(s) == old(St()).At(s)
    {
      hide TreeOk, Apart, Distinct, InDisk, Val, FileSystem.Valid, FileSystem.FreeBlocks, LeafSlot, TailZero, Content, Overlay;
      var buf: Block;
      assert 0 < bn < |fs.disk| by {
        BytesOfBlock(St(), offset / BLOCK_SIZE, 0);
      }
      if |chunk| == BLOCK_SIZE {
        buf := fs.GetBlk(bn);
      } else {
        buf := fs.Bread(bn);
      }
      ghost var r := ChunkStored(St(), offset, chunk, buf, i_size);
      buf := Splice(buf, offset % BLOCK_SIZE, chunk);
      fs.Write(bn, buf);
      if i_size < offset + |chunk| {
        i_size := offset + |chunk|;
      }
      assert St() == r;
      assert KeepsOutside(old(St()), r) by {
        assert LeafSlot(offset / BLOCK_SIZE).Valid();
      }
    }

    /** `Bmap` on a file in good order: no byte of the file changes. */
    method MapBlock(lbn: int) returns (phyBlkno: int, error: Error)
      requires Valid() && 0 <= lbn
      requires lbn < HUGE_FILE_BLOCK ==> St().Missing(LeafSlot(lbn)) <= |fs.FreeBlocks()|
      modifies i_addr, fs, fs.s_free
      ensures Valid() && Bytes() == old(Bytes()) && KeepsOutside(old(St()), St()) && KeepsMapping(old(St()), St())
      ensures lbn >= HUGE_FILE_BLOCK ==> error == EFBIG && phyBlkno == 0
      ensures lbn < HUGE_FILE_BLOCK ==>
        && error == NoError
        && St() == Ensure(old(St()), LeafSlot(lbn))
        && phyBlkno == St().At(LeafSlot(lbn)) != 0
    {
      hide TreeOk, Apart, Distinct, InDisk, Val, FileSystem.Valid, FileSystem.FreeBlocks,
           LeafSlot, TailZero, OnPath, Ahead, Content, Ensure, Store.Outside;
      if lbn < HUGE_FILE_BLOCK {
        EnsureKeepsOutside(St(), LeafSlot(lbn));
        EnsureKeepsContent(St(), LeafSlot(lbn), i_size);
      }
      var ahead;
      phyBlkno, ahead, error := Bmap(lbn);
    }

    /** One turn of `ReadI`: what is wanted of the current block, up to the end of the file. */
    method ReadTurn(offset: int, count: int) returns (chunk: seq<byte>)
      requires Valid() && 0 <= offset < i_size && 0 < count && Room(St(), offset, Min(offset + count, i_size))
      modifies i_addr, fs, fs.s_free
      ensures Valid() && Bytes() == old(Bytes()) && KeepsOutside(old(St()), St())
      ensures 0 < |chunk| <= count && offset + |chunk| <= i_size
      ensures chunk == Bytes()[offset..offset + |chunk|]
      ensures Room(St(), offset + |chunk|, Min(offset + count, i_size))
    {
      hide TreeOk, Apart, Distinct, InDisk, Val, FileSystem.Valid, FileSystem.FreeBlocks,
           LeafSlot, TailZero, OnPath, Suffices, LastBlock, Content, Room, Ensure, KeepsOutside;
      var lbn, within := offset / BLOCK_SIZE, offset % BLOCK_SIZE;
      var nbytes := Min(Min(BLOCK_SIZE - within, count), i_size - offset);
      ghost var st := St();
      WithinBlock(offset, nbytes);
      RoomForTurn(st, offset, Min(offset + count, i_size));
      var bn, error := MapBlock(lbn);
      BlockWindow(St(), offset, nbytes, i_size);
      var buf := fs.Bread(bn);
      chunk := buf[within..within + nbytes];
      RoomAfterTurn(st, St(), offset, nbytes, Min(offset + count, i_size));
    }

    /**
     Reads up to `count` bytes from `offset`, block by block, stopping at the end of the file. A read
     gives every hole it meets a zeroed block, so it needs free blocks for those.
     */
    method ReadI(offset: int, count: int) returns (data: seq<byte>, m_Offset: int, m_Count: int)
      requires Valid() && 0 <= offset && 0 <= count && Room(St(), offset, Min(offset + count, i_size))
      modifies i_addr, fs, fs.s_free
      ensures Valid() && Bytes() == old(Bytes()) && KeepsOutside(old(St()), St())
      ensures data == Window(Bytes(), offset, count)
      ensures m_Offset == offset + |data| && m_Count == count - |data|
    {
      hide Inode.Valid, St, Room, FileSystem.Valid, FileSystem.FreeBlocks, Store.Outside;
      ghost var c, st := Bytes(), St();
      data, m_Offset, m_Count := [], offset, count;
      while m_Count != 0
        invariant Valid() && Bytes() == c && KeepsOutside(st, St())
        invariant m_Offset == offset + |data| && m_Count == count - |data| >= 0
        invariant data != [] ==> m_Offset <= i_size && data == c[offset..m_Offset]
        invariant Room(St(), m_Offset, Min(offset + count, i_size))
        decreases m_Count
      {
        var remain := i_size - m_Offset;
        if remain <= 0 {
          return;
        }
        ghost var before := St();
        var chunk := ReadTurn(m_Offset, m_Count);
        KeepsOutsideTrans(st, before, St());
        WindowGrows(c, offset, data, chunk);
        data := data + chunk;
        m_Offset, m_Count := m_Offset + |chunk|, m_Count - |chunk|;
      }
    }

    /** One turn of `WriteI`: the rest of the current block, or as much as there is. */
    method WriteTurn(offset: int, rest: seq<byte>) returns (nbytes: int, error: Error)
      requires Valid() && 0 <= offset && rest != [] && Room(St(), offset, offset + |rest|)
      modifies this, i_addr, fs, fs.s_free
      ensures Valid() && KeepsOutside(old(St()), St()) && KeepsMapping(old(St()), St())
      ensures offset >= MAX_FILE_SIZE ==> error == EFBIG && nbytes == 0 && Bytes() == old(Bytes())
      ensures offset < MAX_FILE_SIZE ==>
        && error == NoError
        && 0 < nbytes <= |rest| && offset % BLOCK_SIZE + nbytes <= BLOCK_SIZE && offset + nbytes <= MAX_FILE_SIZE
        && St().At(LeafSlot(offset / BLOCK_SIZE)) != 0
        && Bytes() == Overlay(old(Bytes()), offset, rest[..nbytes])
        && Room(St(), offset + nbytes, offset + |rest|)
    {
      hide TreeOk, Apart, Distinct, InDisk, Val, FileSystem.Valid, FileSystem.FreeBlocks,
           LeafSlot, TailZero, OnPath, Suffices, LastBlock, Content, Overlay, Room, Ensure, KeepsOutside;
      var lbn, within := offset / BLOCK_SIZE, offset % BLOCK_SIZE;
      nbytes := Min(BLOCK_SIZE - within, |rest|);
      ghost var st := St();
      WithinBlock(offset, nbytes);
      if offset < MAX_FILE_SIZE {
        RoomForTurn(st, offset, offset + |rest|);
      }
      var bn;
      bn, error := MapBlock(lbn);
      if bn == 0 {
        nbytes := 0;
        return;
      }
      ghost var mapped := St();
      StoreChunk(bn, offset, rest[..nbytes]);
      KeepsOutsideTrans(st, mapped, St());
      RoomAfterTurn(st, St(), offset, nbytes, offset + |rest|);
    }

    /**
     Writes `data` at `offset`, block by block. It stops with an error at the largest file size;
     everything before that point is written. There must be free blocks for what is not yet mapped.
     */
    method WriteI(offset: int, data: seq<byte>) returns (m_Offset: int, m_Count: int, error: Error)
      requires Valid() && 0 <= offset && Room(St(), offset, offset + |data|)
      modifies this, i_addr, fs, fs.s_free
      ensures Valid() && KeepsOutside(old(St()), St())
      ensures KeepsMapping(old(St()), St()) && Mapped(St(), offset, m_Offset)
      ensures m_Count == Max(0, offset + |data| - Max(offset, MAX_FILE_SIZE)) && m_Offset == offset + |data| - m_Count
      ensures error == if m_Count > 0 then EFBIG else NoError
      ensures Bytes() == Overlay(old(Bytes()), offset, data[..|data| - m_Count])
    {
      hide Inode.Valid, St, Bytes, Overlay, Room, FileSystem.Valid, FileSystem.FreeBlocks, Store.Outside, Val, LeafSlot;
      ghost var c, st := Bytes(), St();
      var rest := data;
      ghost var done := [];
      m_Offset, m_Count, error := offset, |data|, NoError;
      OverlayNothing(c, offset);
      while error == NoError && m_Count != 0
        invariant Valid() && KeepsOutside(st, St()) && KeepsMapping(st, St()) && Mapped(St(), offset, m_Offset)
        invariant done + rest == data && m_Count == |rest| && m_Offset == offset + |done|
        invariant m_Offset <= Max(offset, MAX_FILE_SIZE)
        invariant error == NoError ==> Room(St(), m_Offset, offset + |data|)
        invariant error != NoError ==> error == EFBIG && m_Offset == Max(offset, MAX_FILE_SIZE) && m_Count > 0
        invariant Bytes() == Overlay(c, offset, done)
        decreases error == NoError, m_Count
      {
        var nbytes;
        ghost var before := St();
        nbytes, error := WriteTurn(m_Offset, rest);
        KeepsOutsideTrans(st, before, St());
        KeepsMappingTrans(st, before, St());
        if error == NoError {
          MappedGrows(before, St(), offset, m_Offset, nbytes);
        } else {
          MappedKept(before, St(), offset, m_Offset);
        }
        OverlayTwice(c, offset, done, rest[..nbytes]);
        MoveOver(done, rest, nbytes);
        done, rest := done + rest[..nbytes], rest[nbytes..];
        m_Offset, m_Count := m_Offset + nbytes, m_Count - nbytes;
      }
      PrefixOfSum(done, rest);
    }

    // ITrunc, one loop at a time. The tables are read where they lie, in the cache.

    /** Part-way through truncating `st`: `freed` is on the free list, and only freed blocks were written. */
    ghost predicate Releasing(st: Store, freed: seq<int>)
      reads fs, fs.s_free
    {
      && fs.Valid() && st.Ok() && |fs.disk| == |st.disk| && fs.FreeBlocks() == st.stack + freed
      && forall b :: 0 <= b < |st.disk| && b !in freed ==> fs.disk[b] == st.disk[b]
    }

    method Release(b: int, ghost st: Store, ghost s: Slot)
      requires s.Valid() && b == st.At(s) != 0 && Releasing(st, FreedBefore(st, s))
      modifies fs, fs.s_free
      ensures Releasing(st, FreedBefore(st, s) + [b])
    {
      hide Store.Ok, Store.At, FileSystem.Valid, FileSystem.FreeBlocks, FreedBefore;
      NotYet(st, s);
      fs.Free(b);
    }

    method ReleaseSecond(second: int, ghost st: Store, ghost i: int, ghost j: int)
      requires 8 <= i < 10 && 0 <= j < 128 && second == st.At(Entry(i, j)) != 0
      requires Releasing(st, RootFrees(st, i + 1) + EntryFrees(st, i, j + 1))
      modifies fs, fs.s_free
      ensures Releasing(st, FreedBefore(st, Entry(i, j)))
    {
      hide Store.Ok, Store.At, FileSystem.Valid, FileSystem.FreeBlocks, RootFrees, EntryFrees, DeepFrees;
      ghost var table := Entry(i, j);
      InUse(st, table);
      NoneYet(st, i, j);
      for k := 128 downto 0
        invariant Releasing(st, RootFrees(st, i + 1) + EntryFrees(st, i, j + 1) + DeepFrees(st, i, j, k))
      {
        NotAmongRoots(st, table);
        NotAmongEntries(st, table, j + 1);
        NotAmongDeeps(st, table, j, k + 1);
        TableWord(st, Deep(i, j, k));
        UnusedWord(st, i, j, k);
        if Word(fs.disk[second], k) != 0 {
          UsedWord(st, Deep(i, j, k));
          Release(Word(fs.disk[second], k), st, Deep(i, j, k));
        }
      }
    }

    method ReleaseFirst(first: int, i: int, ghost st: Store)
      requires 6 <= i < 10 && first == st.At(Root(i)) != 0 && Releasing(st, RootFrees(st, i + 1))
      modifies fs, fs.s_free
      ensures Releasing(st, FreedBefore(st, Root(i)))
    {
      hide Store.Ok, Store.At, FileSystem.Valid, FileSystem.FreeBlocks, RootFrees, EntryFrees, DeepFrees;
      ghost var table := Root(i);
      InUse(st, table);
      NoneYet(st, i, 127);
      for j := 128 downto 0
        invariant Releasing(st, RootFrees(st, i + 1) + EntryFrees(st, i, j))
      {
        NotAmongRoots(st, table);
        NotAmongEntries(st, table, j + 1);
        TableWord(st, Entry(i, j));
        UnusedWord(st, i, j, 0);
        if Word(fs.disk[first], j) != 0 {
          if i >= 8 {
            ReleaseSecond(Word(fs.disk[first], j), st, i, j);
            NotAmongDeeps(st, table, j, 0);
          }
          UsedWord(st, Entry(i, j));
          Release(Word(fs.disk[first], j), st, Entry(i, j));
        }
      }
    }

    /**
     Empties the file: every block it owned, data and index alike, goes onto the free list exactly once,
     and everything outside the file and the free list stays as it was.
     */
    method ITrunc()
      requires Valid()
      modifies this, i_addr, fs, fs.s_free
      ensures Valid() && Bytes() == [] && i_addr[..] == seq(10, _ => 0)
      ensures fs.FreeBlocks() == old(fs.FreeBlocks()) + RootFrees(old(St()), 0)
      ensures forall b :: b > 0 ==> (b in fs.FreeBlocks() <==> !old(St()).Outside(b))
      ensures KeepsOutside(old(St()), St())
    {
      hide Store.Ok, Store.At, FileSystem.Valid, FileSystem.FreeBlocks, RootFrees, EntryFrees, DeepFrees, KeepsOutside;
      ghost var st := St();
      NoneYet(st, 9, 127);
      for i := 10 downto 0
        invariant i_addr.Length == 10 && i_addr != fs.s_free
        invariant forall m :: 0 <= m < 10 ==> i_addr[m] == if m < i then st.addr[m] else 0
        invariant Releasing(st, RootFrees(st, i))
      {
        RootWord(st, i);
        UnusedWord(st, i, 0, 0);
        if i_addr[i] != 0 {
          if i >= 6 {
            ReleaseFirst(i_addr[i], i, st);
          }
          UsedWord(st, Root(i));
          Release(i_addr[i], st, Root(i));
          i_addr[i] := 0;
        }
      }
      i_size := 0;
      AllOutsideKept(st, St());
      fs.FreeBlocksInOrder();
      NoBlocks(St());
    }
  }

  /** The read-ahead hint for `lbn`: nothing across the end of a table. */
  ghost function Ahead(st: Store, lbn: int): int
    requires |st.addr| == 10 && 0 <= lbn < HUGE_FILE_BLOCK
  {
    if lbn == 5 || (lbn >= 6 && LeafSlot(lbn).Index() == 127) then 0 else st.At(LeafSlot(lbn + 1))
  }

  /** Both slots lie in the inode, or in the same index block. */
  predicate SameTable(s: Slot, t: Slot) {
    if s.Root? || t.Root? then s.Root? && t.Root? else s.Parent() == t.Parent()
  }

  lemma {:induction false} EndOfTable(lbn: int)
    requires 6 <= lbn < HUGE_FILE_BLOCK && LeafSlot(lbn).Index() == 127
    ensures lbn + 1 < HUGE_FILE_BLOCK ==> !SameTable(LeafSlot(lbn), LeafSlot(lbn + 1))
  {
    if LARGE_FILE_BLOCK <= lbn < HUGE_FILE_BLOCK - 1 {
      var n := lbn - LARGE_FILE_BLOCK;
      assert (n + 1) / 128 == n / 128 + 1;
      assert n / (128 * 128) == n / 128 / 128 && (n + 1) / (128 * 128) == (n + 1) / 128 / 128;
    }
  }

  /** The block to be read ahead is that of the next logical block, as long as its number is in the table in hand. */
  lemma {:induction false} AheadIsNext(st: Store, lbn: int)
    requires |st.addr| == 10 && 0 <= lbn < HUGE_FILE_BLOCK
    ensures Ahead(st, lbn)
         == if lbn + 1 < HUGE_FILE_BLOCK && SameTable(LeafSlot(lbn), LeafSlot(lbn + 1)) then st.At(LeafSlot(lbn + 1)) else 0
    ensures lbn < 5 ==> Ahead(st, lbn) == st.addr[lbn + 1]
  {
    if lbn >= 6 {
      if LeafSlot(lbn).Index() < 127 {
        LeafSlotNext(lbn);
      } else {
        EndOfTable(lbn);
      }
    }
  }

  lemma AheadInTable(st: Store, lbn: int, table: Block)
    requires |st.addr| == 10 && 6 <= lbn < HUGE_FILE_BLOCK
    requires var p := st.At(LeafSlot(lbn).Parent()); 0 < p < |st.disk| && table == st.disk[p]
    ensures var k := LeafSlot(lbn).Index(); Ahead(st, lbn) == if k + 1 < 128 then Word(table, k + 1) else 0
  {
    if LeafSlot(lbn).Index() < 127 {
      LeafSlotNext(lbn);
    }
  }
}
