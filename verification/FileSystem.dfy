/**
 The storage half of the file system: the in-memory superblock's free table over the disk as the
 buffer cache presents it, an array of blocks in which a write is seen by every later read.
 */
module FileSystems {
  import opened Sequences
  import opened Words
  import opened FreeList

  class FileSystem {
    var s_nfree: int
    const s_free: array<int>
    var disk: seq<Block>
    /** The linking blocks of the free list, nearest first. */
    ghost var spine: seq<int>

    ghost function Top(): Group
      reads this, s_free
    {
      Group(s_nfree, s_free[..])
    }

    ghost predicate Valid()
      reads this, s_free
    {
      s_free.Length == GROUP_SIZE && 0 < |disk| <= WORD_LIMIT && FreeOk(Top(), disk, spine)
    }

    /** The free blocks, the next one to be allocated last. */
    ghost function FreeBlocks(): (s: seq<int>)
      reads this, s_free
      ensures s != [] ==> s_nfree >= 1
    {
      if FreeOk(Top(), disk, spine) then Stack(Top(), disk, spine) else []
    }

    lemma FreeBlocksInOrder()
      requires Valid()
      ensures 0 < |disk| <= WORD_LIMIT && Distinct(FreeBlocks()) && InDisk(FreeBlocks(), disk)
    {
    }

    /** A file system over a blank disk, with no block free. */
    constructor (blocks: nat)
      requires 0 < blocks <= WORD_LIMIT
      ensures Valid() && FreeBlocks() == [] && fresh(s_free)
    {
      s_nfree := 0;
      s_free := new int[GROUP_SIZE](_ => 0);
      disk := seq(blocks, _ => ZeroBlock());
      spine := [];
    }

    // The buffer cache as seen by one process.

    method Bread(blkno: int) returns (buf: Block)
      requires 0 <= blkno < |disk|
      ensures buf == disk[blkno]
    {
      buf := disk[blkno];
    }

    /** A buffer for a block that is about to be overwritten: nothing is known of its contents. */
    method GetBlk(blkno: int) returns (buf: Block)
      requires 0 <= blkno < |disk|
    {
      buf := *;
    }

    /** `Bwrite`, `Bawrite` and `Bdwrite` alike: the block's contents become the buffer's. */
    method Write(blkno: int, buf: Block)
      requires Valid() && 0 <= blkno < |disk| && blkno !in FreeBlocks()
      modifies `disk
      ensures Valid() && FreeBlocks() == old(FreeBlocks())
      ensures disk == old(disk)[blkno := buf]
    {
      disk := disk[blkno := buf];
      WriteKeepsFreeOk(Top(), old(disk), disk, spine);
    }

    /** Replaces the superblock's group by the one a linking block stores. */
    method LoadGroup(p: Block)
      requires s_free.Length == GROUP_SIZE
      modifies `s_nfree, s_free
      ensures Top() == Stored(p)
    {
      s_nfree := Word(p, 0);
      for k := 0 to GROUP_SIZE
        invariant s_nfree == Word(p, 0)
        invariant forall i :: 0 <= i < k ==> s_free[i] == Word(p, 1 + i)
      {
        s_free[k] := Word(p, 1 + k);
      }
      assert s_free[..] == Stored(p).free;
    }

    /** Reads the entry below `s_nfree`, moving on to the next group when that was the last one. */
    method TakeEntry() returns (blkno: int)
      requires s_free.Length == GROUP_SIZE && 1 <= s_nfree <= GROUP_SIZE
      requires s_free[s_nfree - 1] < |disk| && s_free[s_nfree - 1] >= 0
      modifies `s_nfree, s_free
      ensures blkno == old(s_free[s_nfree - 1])
      ensures blkno == 0 ==> s_nfree == 0 && s_free[..] == old(s_free[..])
      ensures blkno != 0 ==> Top() == AfterAlloc(old(Top()), disk)
    {
      s_nfree := s_nfree - 1;
      blkno := s_free[s_nfree];
      if blkno == 0 {
        s_nfree := 0;
        return;
      }
      if s_nfree <= 0 {
        var p := Bread(blkno);
        LoadGroup(p);
      }
    }

    /**
     Takes the top block and hands it out cleared, or fails with 0. The clearing stays in the buffer
     until the caller writes it. The table entry read is the one below `s_nfree`, so there must be one.
     */
    method Alloc() returns (blkno: int, buf: Block)
      requires Valid() && s_nfree >= 1
      modifies `s_nfree, s_free, `spine
      ensures Valid() && disk == old(disk)
      ensures old(FreeBlocks()) == [] ==> blkno == 0 && s_nfree == 0 && FreeBlocks() == []
      ensures old(FreeBlocks()) != [] ==>
        && blkno == old(FreeBlocks()[|FreeBlocks()| - 1])
        && FreeBlocks() == old(FreeBlocks()[..|FreeBlocks()| - 1])
        && Top() == AfterAlloc(old(Top()), disk)
        && buf == ZeroBlock()
        && s_nfree >= 1 && 0 < blkno < |disk| && blkno !in FreeBlocks()
    {
      ghost var g := Top();
      ghost var spine' := AllocPops(g, disk, spine);
      hide FreeOk, Stack, AfterAlloc, IsList, Chain;
      buf := ZeroBlock();
      blkno := TakeEntry();
      spine := spine';
    }

    /** Puts a block on top of the list; a full table first moves into that very block. */
    method Free(blkno: int)
      requires Valid() && 0 < blkno < |disk| && blkno !in FreeBlocks()
      modifies this, s_free
      ensures Valid() && FreeBlocks() == old(FreeBlocks()) + [blkno]
      ensures Top() == AfterFree(old(Top()), blkno)
      ensures |disk| == |old(disk)|
      ensures forall b :: 0 <= b < |disk| && b != blkno ==> disk[b] == old(disk[b])
      ensures old(s_nfree) < GROUP_SIZE ==> disk == old(disk)
    {
      hide FreeOk, Stack, IsList, Chain, Stored;
      ghost var g := Top();
      ghost var stale: Block := ZeroBlock();
      TableOfList(g, disk, spine);
      if s_nfree <= 0 {
        s_nfree := 1;
        s_free[0] := 0;
      }
      if s_nfree >= GROUP_SIZE {
        var p := GetBlk(blkno);
        stale := p;
        p := PutWord(p, 0, s_nfree);
        p := PutWords(p, 1, s_free[..]);
        s_nfree := 0;
        disk := disk[blkno := p];
      }
      s_free[s_nfree] := blkno;
      s_nfree := s_nfree + 1;
      spine := FreePushes(g, old(disk), spine, blkno, stale);
    }
  }
}
