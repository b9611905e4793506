/** A file as a flat array of bytes, read through its block index; missing blocks read as zeros. */
module FileBytes {
  import opened Sequences
  import opened Words
  import opened FreeList
  import opened IndexTree
  import opened BlockMap

  function ByteAt(addr: seq<int>, disk: seq<Block>, off: int): byte {
    var v := Val(addr, disk, LeafSlot(off / BLOCK_SIZE));
    if 0 < v < |disk| then disk[v][off % BLOCK_SIZE] else 0
  }

  /** Everything past the end of the file reads as zero. */
  ghost predicate TailZero(addr: seq<int>, disk: seq<Block>, size: int) {
    forall off :: 0 <= size <= off < MAX_FILE_SIZE ==> ByteAt(addr, disk, off) == 0
  }

  function Content(addr: seq<int>, disk: seq<Block>, size: int): (c: seq<byte>)
    requires 0 <= size
    ensures |c| == size && forall i :: 0 <= i < size ==> c[i] == ByteAt(addr, disk, i)
  {
    seq(size, i requires 0 <= i < size => ByteAt(addr, disk, i))
  }

  function Max(a: int, b: int): int { if a < b then b else a }

  function Min(a: int, b: int): int { if a < b then a else b }

  /** `c` with `data` laid over it at `off`, the gap filled with zeros; nothing to write changes nothing. */
  function Overlay(c: seq<byte>, off: nat, data: seq<byte>): (r: seq<byte>)
    ensures data != [] ==>
      && |r| == Max(|c|, off + |data|)
      && forall i :: 0 <= i < |r| ==>
           r[i] == if off <= i < off + |data| then data[i - off] else if i < |c| then c[i] else 0
  {
    if data == [] then c
    else seq(Max(|c|, off + |data|), i requires 0 <= i =>
               if off <= i < off + |data| then data[i - off] else if i < |c| then c[i] else 0)
  }

  /** What a read at `off` for `count` bytes must deliver. */
  function Window(c: seq<byte>, off: nat, count: nat): seq<byte> {
    if off >= |c| then [] else c[off..Min(off + count, |c|)]
  }

  lemma OverlayNothing(c: seq<byte>, off: nat)
    ensures Overlay(c, off, []) == c
  {
  }

  lemma OverlayTwiceAt(c: seq<byte>, off: nat, a: seq<byte>, b: seq<byte>, i: int)
    requires a != [] && b != []
    ensures |Overlay(Overlay(c, off, a), off + |a|, b)| == |Overlay(c, off, a + b)|
    ensures 0 <= i < |Overlay(c, off, a + b)| ==>
              Overlay(Overlay(c, off, a), off + |a|, b)[i] == Overlay(c, off, a + b)[i]
  {
    hide Overlay;
    var m := Overlay(c, off, a);
    if off <= i < off + |a| + |b| {
      assert (a + b)[i - off] == if i < off + |a| then a[i - off] else b[i - (off + |a|)];
    }
  }

  /** Two writes, one where the other ended, are one write. */
  lemma OverlayTwice(c: seq<byte>, off: nat, a: seq<byte>, b: seq<byte>)
    ensures Overlay(Overlay(c, off, a), off + |a|, b) == Overlay(c, off, a + b)
  {
    if a == [] {
      assert a + b == b;
    } else if b == [] {
      assert a + b == a;
    } else {
      hide Overlay;
      OverlayTwiceAt(c, off, a, b, -1);
      forall i | 0 <= i < |Overlay(c, off, a + b)|
        ensures Overlay(Overlay(c, off, a), off + |a|, b)[i] == Overlay(c, off, a + b)[i]
      {
        OverlayTwiceAt(c, off, a, b, i);
      }
    }
  }

  /** Reading back what was just written, wherever it was written. */
  lemma WindowOfOverlay(c: seq<byte>, off: nat, data: seq<byte>)
    requires data != []
    ensures Window(Overlay(c, off, data), off, |data|) == data
  {
  }

  /** A read elsewhere sees what it would have seen before, zeros where the file has grown. */
  lemma WindowBesideOverlay(c: seq<byte>, off: nat, data: seq<byte>, at: nat, count: nat)
    requires at + count <= off || off + |data| <= at
    requires at + count <= |c|
    ensures Window(Overlay(c, off, data), at, count) == Window(c, at, count)
  {
  }

  lemma EnsureZeroes(st: Store, s: Slot)
    requires st.Ok() && s.Valid() && st.Missing(s) <= |st.stack| && st.At(s) == 0
    ensures var r := Ensure(st, s); 0 < r.At(s) < |r.disk| && r.disk[r.At(s)] == ZeroBlock()
  {
    var up := if s.Root? then st else Ensure(st, s.Parent());
    AttachFacts(up, s);
  }

  /** Mapping a block, even allocating it, changes no byte of the file. */
  lemma EnsureKeepsBytes(st: Store, s: Slot, off: int)
    requires st.Ok() && s.Valid() && s.NamesData() && st.Missing(s) <= |st.stack| && 0 <= off < MAX_FILE_SIZE
    ensures var r := Ensure(st, s); ByteAt(r.addr, r.disk, off) == ByteAt(st.addr, st.disk, off)
  {
    var leaf := LeafSlot(off / BLOCK_SIZE);
    var r := Ensure(st, s);
    var v := st.At(leaf);
    if v != 0 {
      assert !st.IsTable(v);
      assert v !in st.stack;
      EnsureWrites(st, s, v);
    } else if r.At(leaf) != 0 {
      assert leaf == s;
      EnsureZeroes(st, s);
    }
  }

  /** Storing over a data block of the file replaces just the bytes of that block. */
  lemma DataWrite(st: Store, lbn: int, buf: Block)
    requires st.Ok() && 0 <= lbn < HUGE_FILE_BLOCK && st.At(LeafSlot(lbn)) != 0
    ensures 0 < st.At(LeafSlot(lbn)) < |st.disk|
    ensures var r := st.(disk := st.disk[st.At(LeafSlot(lbn)) := buf]);
            && r.Ok()
            && (forall s: Slot :: s.Valid() ==> r.At(s) == st.At(s))
            && forall off :: 0 <= off < MAX_FILE_SIZE ==>
                 ByteAt(r.addr, r.disk, off)
                 == if off / BLOCK_SIZE == lbn then buf[off % BLOCK_SIZE] else ByteAt(st.addr, st.disk, off)
  {
    var leaf := LeafSlot(lbn);
    var v := st.At(leaf);
    var disk' := st.disk[v := buf];
    TreeFrame(st.addr, st.disk, disk');
    forall off | 0 <= off < MAX_FILE_SIZE
      ensures ByteAt(st.addr, disk', off)
           == if off / BLOCK_SIZE == lbn then buf[off % BLOCK_SIZE] else ByteAt(st.addr, st.disk, off)
    {
      var other := LeafSlot(off / BLOCK_SIZE);
      if st.At(other) == v {
        LeafSlotInjective(lbn, off / BLOCK_SIZE);
      }
    }
  }

  lemma MoveOver(done: seq<byte>, rest: seq<byte>, n: nat)
    requires n <= |rest|
    ensures done + rest[..n] + rest[n..] == done + rest
  {
  }

  lemma PrefixOfSum(done: seq<byte>, rest: seq<byte>)
    ensures (done + rest)[..|done|] == done
  {
  }

  // Room for the blocks a transfer may have to allocate.

  /** No allocation fails when the logical blocks from `lo` up to `hi` are mapped one after the other. */
  ghost predicate Suffices(st: Store, lo: int, hi: int)
    decreases hi - lo
  {
    lo < hi ==>
      && st.Ok() && 0 <= lo < HUGE_FILE_BLOCK && st.Missing(LeafSlot(lo)) <= |st.stack|
      && Suffices(Ensure(st, LeafSlot(lo)), lo + 1, hi)
  }

  lemma {:induction false} MissesNothing(st: Store, s: Slot)
    requires st.Ok() && s.Valid() && st.At(s) != 0
    ensures st.Missing(s) == 0
    decreases s.Deep?, s.Entry?
  {
    if !s.Root? {
      MissesNothing(st, s.Parent());
    }
  }

  /** The same free blocks and the same tree, whatever the data blocks hold. */
  ghost predicate SameShape(a: Store, b: Store) {
    a.Ok() && b.Ok() && a.stack == b.stack && forall s: Slot :: s.Valid() ==> a.At(s) == b.At(s)
  }

  lemma {:induction false} MissingSame(a: Store, b: Store, s: Slot)
    requires SameShape(a, b) && s.Valid()
    ensures a.Missing(s) == b.Missing(s)
    decreases s.Deep?, s.Entry?
  {
    hide Store.Ok, Val;
    assert a.At(s) == b.At(s);
    if !s.Root? {
      MissingSame(a, b, s.Parent());
    }
  }

  lemma {:induction false} FillSame(a: Store, b: Store, s: Slot)
    requires SameShape(a, b) && s.Valid() && (!s.Root? ==> a.At(s.Parent()) != 0) && (a.At(s) == 0 ==> a.stack != [])
    ensures a.At(s) == b.At(s) && (!s.Root? ==> b.At(s.Parent()) != 0)
    ensures SameShape(Fill(a, s), Fill(b, s))
  {
    hide TreeOk, Apart, Distinct, InDisk, Val;
    if a.At(s) == 0 {
      AttachFacts(a, s);
      AttachFacts(b, s);
    }
  }

  lemma {:induction false} EnsureSame(a: Store, b: Store, s: Slot)
    requires SameShape(a, b) && s.Valid() && a.Missing(s) <= |a.stack|
    ensures b.Missing(s) <= |b.stack| && SameShape(Ensure(a, s), Ensure(b, s))
    decreases s.Deep?, s.Entry?
  {
    hide TreeOk, Apart, Distinct, InDisk, Val, Fill;
    MissingSame(a, b, s);
    if s.Root? {
      FillSame(a, b, s);
    } else {
      EnsureStep(a, s);
      EnsureStep(b, s);
      EnsureSame(a, b, s.Parent());
      FillSame(Ensure(a, s.Parent()), Ensure(b, s.Parent()), s);
    }
  }

  lemma {:induction false} SufficesSame(a: Store, b: Store, lo: int, hi: int)
    requires SameShape(a, b) && Suffices(a, lo, hi)
    ensures Suffices(b, lo, hi)
    decreases hi - lo
  {
    hide TreeOk, Apart, Distinct, InDisk, Val, Ensure, LeafSlot;
    if lo < hi {
      EnsureSame(a, b, LeafSlot(lo));
      MissingSame(a, b, LeafSlot(lo));
      SufficesSame(Ensure(a, LeafSlot(lo)), Ensure(b, LeafSlot(lo)), lo + 1, hi);
    }
  }

  /** `r` is `st` with `chunk` stored at `from`, byte by byte. */
  ghost predicate Stored(st: Store, r: Store, from: int, chunk: seq<byte>) {
    forall off :: 0 <= off < MAX_FILE_SIZE ==>
         ByteAt(r.addr, r.disk, off)
         == if from <= off < from + |chunk| then chunk[off - from] else ByteAt(st.addr, st.disk, off)
  }

  /** Patching part of one data block. */
  lemma PatchBlock(st: Store, lbn: int, buf: Block, from: int, chunk: seq<byte>)
    requires st.Ok() && 0 <= lbn < HUGE_FILE_BLOCK && st.At(LeafSlot(lbn)) != 0
    requires lbn * BLOCK_SIZE <= from && from + |chunk| <= (lbn + 1) * BLOCK_SIZE
    requires forall k :: 0 <= k < BLOCK_SIZE ==>
               var off := lbn * BLOCK_SIZE + k;
               buf[k] == if from <= off < from + |chunk| then chunk[off - from] else ByteAt(st.addr, st.disk, off)
    ensures 0 < st.At(LeafSlot(lbn)) < |st.disk|
    ensures Stored(st, st.(disk := st.disk[st.At(LeafSlot(lbn)) := buf]), from, chunk)
  {
    DataWrite(st, lbn, buf);
    hide LeafSlot, TreeOk, Apart;
    var r := st.(disk := st.disk[st.At(LeafSlot(lbn)) := buf]);
    forall off | 0 <= off < MAX_FILE_SIZE
      ensures ByteAt(r.addr, r.disk, off)
           == if from <= off < from + |chunk| then chunk[off - from] else ByteAt(st.addr, st.disk, off)
    {
      if off / BLOCK_SIZE == lbn {
        assert off == lbn * BLOCK_SIZE + off % BLOCK_SIZE;
      }
    }
  }

  /** Bytes past the end stay zero, and the contents are overlaid. */
  lemma StoredContent(st: Store, r: Store, size: int, from: int, chunk: seq<byte>)
    requires Stored(st, r, from, chunk) && chunk != [] && 0 <= from && from + |chunk| <= MAX_FILE_SIZE
    requires 0 <= size <= MAX_FILE_SIZE && TailZero(st.addr, st.disk, size)
    ensures var size' := Max(size, from + |chunk|);
            && TailZero(r.addr, r.disk, size')
            && Content(r.addr, r.disk, size') == Overlay(Content(st.addr, st.disk, size), from, chunk)
  {
    hide ByteAt;
  }

  lemma BytesOfBlock(st: Store, lbn: int, k: int)
    requires st.Ok() && 0 <= lbn < HUGE_FILE_BLOCK && st.At(LeafSlot(lbn)) != 0 && 0 <= k < BLOCK_SIZE
    ensures 0 < st.At(LeafSlot(lbn)) < |st.disk|
    ensures ByteAt(st.addr, st.disk, lbn * BLOCK_SIZE + k) == st.disk[st.At(LeafSlot(lbn))][k]
  {
    assert (lbn * BLOCK_SIZE + k) / BLOCK_SIZE == lbn && (lbn * BLOCK_SIZE + k) % BLOCK_SIZE == k;
  }

  function Splice(buf: Block, within: int, chunk: seq<byte>): (r: Block)
    requires 0 <= within && within + |chunk| <= BLOCK_SIZE
  {
    buf[..within] + chunk + buf[within + |chunk|..]
  }

  /** The whole effect of storing `chunk` at `offset` once its block is mapped. */
  lemma ChunkStored(st: Store, offset: int, chunk: seq<byte>, buf: Block, size: int) returns (r: Store)
    requires st.Ok() && 0 <= offset && chunk != [] && offset + |chunk| <= MAX_FILE_SIZE
    requires offset % BLOCK_SIZE + |chunk| <= BLOCK_SIZE
    requires var v := st.At(LeafSlot(offset / BLOCK_SIZE));
             v != 0 && (|chunk| == BLOCK_SIZE || (0 < v < |st.disk| && buf == st.disk[v]))
    requires 0 <= size <= MAX_FILE_SIZE && TailZero(st.addr, st.disk, size)
    ensures var v := st.At(LeafSlot(offset / BLOCK_SIZE));
            && 0 < v < |st.disk| && v !in st.stack
            && r == st.(disk := st.disk[v := Splice(buf, offset % BLOCK_SIZE, chunk)])
    ensures r.Ok() && forall s: Slot :: s.Valid() ==> r.At(s) == st.At(s)
    ensures var size' := Max(size, offset + |chunk|);
            && TailZero(r.addr, r.disk, size')
            && Content(r.addr, r.disk, size') == Overlay(Content(st.addr, st.disk, size), offset, chunk)
  {
    var lbn, within := offset / BLOCK_SIZE, offset % BLOCK_SIZE;
    var new_ := Splice(buf, within, chunk);
    DataWrite(st, lbn, new_);
    assert st.At(LeafSlot(lbn)) !in st.stack;
    hide TreeOk, Apart, Distinct, InDisk;
    forall k | 0 <= k < BLOCK_SIZE
      ensures var off := lbn * BLOCK_SIZE + k;
              new_[k] == if offset <= off < offset + |chunk| then chunk[off - offset] else ByteAt(st.addr, st.disk, off)
    {
      BytesOfBlock(st, lbn, k);
    }
    PatchBlock(st, lbn, new_, offset, chunk);
    r := st.(disk := st.disk[st.At(LeafSlot(lbn)) := new_]);
    StoredContent(st, r, size, offset, chunk);
  }

  lemma EnsureKeepsContent(st: Store, s: Slot, size: int)
    requires st.Ok() && s.Valid() && s.NamesData() && st.Missing(s) <= |st.stack| && 0 <= size <= MAX_FILE_SIZE
    ensures var r := Ensure(st, s);
            && Content(r.addr, r.disk, size) == Content(st.addr, st.disk, size)
            && (TailZero(st.addr, st.disk, size) ==> TailZero(r.addr, r.disk, size))
  {
    forall off | 0 <= off < MAX_FILE_SIZE
      ensures var r := Ensure(st, s); ByteAt(r.addr, r.disk, off) == ByteAt(st.addr, st.disk, off)
    {
      EnsureKeepsBytes(st, s, off);
    }
  }

  /** Repeating a mapping finds everything in place. */
  lemma {:induction false} EnsureTwice(st: Store, s: Slot)
    requires st.Ok() && s.Valid() && st.Missing(s) <= |st.stack|
    ensures Ensure(st, s).Missing(s) == 0
    ensures Ensure(Ensure(st, s), s) == Ensure(st, s)
    decreases s.Deep?, s.Entry?
  {
    var r := Ensure(st, s);
    MissesNothing(r, s);
    EnsureInPlace(r, s);
  }

  lemma {:induction false} EnsureInPlace(st: Store, s: Slot)
    requires st.Ok() && s.Valid() && st.At(s) != 0 && st.Missing(s) == 0
    ensures Ensure(st, s) == st
    decreases s.Deep?, s.Entry?
  {
    if !s.Root? {
      EnsureInPlace(st, s.Parent());
    }
  }

  /** One past the last mappable block that a range of bytes ending at `to` touches. */
  function LastBlock(to: int): int {
    Min((to + BLOCK_SIZE - 1) / BLOCK_SIZE, HUGE_FILE_BLOCK)
  }

  /** The free blocks suffice for the bytes from `from` up to `to`. */
  ghost predicate Room(st: Store, from: int, to: int) {
    0 <= from < MAX_FILE_SIZE && from < to ==> Suffices(st, from / BLOCK_SIZE, LastBlock(to))
  }

  lemma BeforeLastBlock(from: int, to: int)
    requires 0 <= from < to && from < MAX_FILE_SIZE
    ensures from / BLOCK_SIZE < LastBlock(to) <= HUGE_FILE_BLOCK
  {
  }

  lemma {:induction false} OneBlock(from: int, nbytes: int)
    requires 0 <= from && 0 < nbytes && from % BLOCK_SIZE + nbytes <= BLOCK_SIZE && from / BLOCK_SIZE < HUGE_FILE_BLOCK
    ensures LastBlock(from + nbytes) == from / BLOCK_SIZE + 1
  {
  }

  lemma WithinBlock(from: int, nbytes: int)
    requires 0 <= from && from % BLOCK_SIZE + nbytes <= BLOCK_SIZE
    ensures from < MAX_FILE_SIZE <==> from / BLOCK_SIZE < HUGE_FILE_BLOCK
    ensures from < MAX_FILE_SIZE ==> from + nbytes <= MAX_FILE_SIZE
  {
  }

  lemma NextBlockStart(from: int)
    requires 0 <= from
    ensures (from - from % BLOCK_SIZE + BLOCK_SIZE) / BLOCK_SIZE == from / BLOCK_SIZE + 1
  {
  }

  lemma {:induction false} RoomForTurn(st: Store, from: int, to: int)
    requires st.Ok() && 0 <= from < to && from < MAX_FILE_SIZE && Room(st, from, to)
    ensures from / BLOCK_SIZE < HUGE_FILE_BLOCK && st.Missing(LeafSlot(from / BLOCK_SIZE)) <= |st.stack|
  {
    BeforeLastBlock(from, to);
  }

  /** Moving on once the block at `from` has been mapped, whatever was stored there. */
  lemma {:induction false} RoomAfterTurn(st: Store, r: Store, from: int, nbytes: int, to: int)
    requires st.Ok() && 0 <= from < to && from < MAX_FILE_SIZE && Room(st, from, to)
    requires st.Missing(LeafSlot(from / BLOCK_SIZE)) <= |st.stack|
    requires SameShape(Ensure(st, LeafSlot(from / BLOCK_SIZE)), r)
    requires nbytes == Min(BLOCK_SIZE - from % BLOCK_SIZE, to - from)
    ensures Room(r, from + nbytes, to)
  {
    hide LeafSlot, Store.Ok, Ensure, LastBlock, SameShape;
    if from + nbytes < to {
      NextBlockStart(from);
      BeforeLastBlock(from, to);
      SufficesSame(Ensure(st, LeafSlot(from / BLOCK_SIZE)), r, from / BLOCK_SIZE + 1, LastBlock(to));
    }
  }

  /** Part of a mapped block is that part of the file. */
  lemma BlockWindow(st: Store, offset: int, nbytes: int, size: int)
    requires st.Ok() && 0 <= offset && 0 <= nbytes && offset % BLOCK_SIZE + nbytes <= BLOCK_SIZE
    requires offset + nbytes <= size <= MAX_FILE_SIZE
    requires offset / BLOCK_SIZE < HUGE_FILE_BLOCK && st.At(LeafSlot(offset / BLOCK_SIZE)) != 0
    ensures var v := st.At(LeafSlot(offset / BLOCK_SIZE));
            && 0 < v < |st.disk|
            && st.disk[v][offset % BLOCK_SIZE..offset % BLOCK_SIZE + nbytes]
               == Content(st.addr, st.disk, size)[offset..offset + nbytes]
  {
    hide LeafSlot, TreeOk, ByteAt;
    var lbn, within := offset / BLOCK_SIZE, offset % BLOCK_SIZE;
    BytesOfBlock(st, lbn, 0);
    var part := st.disk[st.At(LeafSlot(lbn))][within..within + nbytes];
    var window := Content(st.addr, st.disk, size)[offset..offset + nbytes];
    forall i | 0 <= i < nbytes ensures part[i] == window[i] {
      BytesOfBlock(st, lbn, within + i);
    }
  }

  lemma WindowGrows(c: seq<byte>, offset: int, data: seq<byte>, chunk: seq<byte>)
    requires 0 <= offset && offset + |data| + |chunk| <= |c|
    requires data == [] || data == c[offset..offset + |data|]
    requires chunk == c[offset + |data|..offset + |data| + |chunk|]
    ensures data + chunk == c[offset..offset + |data + chunk|]
  {
  }

  lemma MappedKept(a: Store, b: Store, from: int, to: int)
    requires Mapped(a, from, to) && KeepsMapping(a, b)
    ensures Mapped(b, from, to)
  {
    hide Val, LeafSlot;
    if from < to {
      forall lbn | 0 <= from / BLOCK_SIZE <= lbn < HUGE_FILE_BLOCK && lbn * BLOCK_SIZE < to
        ensures b.At(LeafSlot(lbn)) != 0
      {
        assert LeafSlot(lbn).Valid() && a.At(LeafSlot(lbn)) != 0;
      }
    }
  }

  /** A turn maps its own block; earlier turns' blocks stay mapped. */
  lemma MappedGrows(a: Store, b: Store, from: int, mid: int, nbytes: int)
    requires Mapped(a, from, mid) && KeepsMapping(a, b) && 0 <= from <= mid < MAX_FILE_SIZE
    requires mid % BLOCK_SIZE + nbytes <= BLOCK_SIZE && b.At(LeafSlot(mid / BLOCK_SIZE)) != 0
    ensures Mapped(b, from, mid + nbytes)
  {
    hide Val, LeafSlot;
    if from < mid + nbytes {
      forall lbn | 0 <= from / BLOCK_SIZE <= lbn < HUGE_FILE_BLOCK && lbn * BLOCK_SIZE < mid + nbytes
        ensures b.At(LeafSlot(lbn)) != 0
      {
        if lbn < mid / BLOCK_SIZE {
          assert LeafSlot(lbn).Valid() && a.At(LeafSlot(lbn)) != 0;
        }
      }
    }
  }
}
