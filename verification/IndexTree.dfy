/**
 The block index of one file: ten addresses in the inode, the last four of which root tables of
 128 block numbers, one level deep for entries 6 and 7 and two levels deep for entries 8 and 9.
 Every place that can hold a block number is a slot, so that being a tree is injectivity over slots.
 */
module IndexTree {
  import opened Words

  const SMALL_FILE_BLOCK := 6
  const LARGE_FILE_BLOCK := 128 * 2 + 6
  const HUGE_FILE_BLOCK := 128 * 128 * 2 + 128 * 2 + 6
  const MAX_FILE_SIZE := HUGE_FILE_BLOCK * BLOCK_SIZE

  datatype Slot =
    | Root(i: int)
    | Entry(i: int, j: int)
    | Deep(i: int, j: int, k: int)
  {
    predicate Valid() {
      match this
      case Root(i) => 0 <= i < 10
      case Entry(i, j) => 6 <= i < 10 && 0 <= j < 128
      case Deep(i, j, k) => 8 <= i < 10 && 0 <= j < 128 && 0 <= k < 128
    }

    /** Slots that name data blocks, as opposed to index blocks. */
    predicate NamesData() {
      match this
      case Root(i) => i < 6
      case Entry(i, _) => i < 8
      case Deep(_, _, _) => true
    }

    /** The slot naming the index block this slot lies in. */
    function Parent(): Slot
      requires !Root?
    {
      if Entry? then Root(i) else Entry(i, j)
    }

    /** Position within the parent's table. */
    function Index(): int {
      match this
      case Root(i) => i
      case Entry(_, j) => j
      case Deep(_, _, k) => k
    }
  }

  function ReadWord(disk: seq<Block>, b: int, j: int): int {
    if 0 < b < |disk| && 0 <= j < 128 then Word(disk[b], j) else 0
  }

  /** The block number in a slot; 0 when there is none, also when an index block above is missing. */
  function Val(addr: seq<int>, disk: seq<Block>, s: Slot): int
    decreases s.Deep?, s.Entry?
  {
    match s
    case Root(i) => if 0 <= i < |addr| then addr[i] else 0
    case Entry(i, j) => ReadWord(disk, Val(addr, disk, Root(i)), j)
    case Deep(i, j, k) => ReadWord(disk, Val(addr, disk, Entry(i, j)), k)
  }

  ghost predicate TreeOk(addr: seq<int>, disk: seq<Block>) {
    && |addr| == 10
    && (forall s: Slot :: s.Valid() ==> 0 <= Val(addr, disk, s) < |disk|)
    && (forall s: Slot, t: Slot :: s.Valid() && t.Valid() && Val(addr, disk, s) == Val(addr, disk, t) != 0 ==> s == t)
  }

  /** No block of the tree is in `bs`. */
  ghost predicate Apart(addr: seq<int>, disk: seq<Block>, bs: seq<int>) {
    forall s: Slot :: s.Valid() && Val(addr, disk, s) != 0 ==> Val(addr, disk, s) !in bs
  }

  /** The slot that names logical block `lbn`. */
  function LeafSlot(lbn: int): (s: Slot)
    ensures 0 <= lbn < HUGE_FILE_BLOCK ==> s.Valid() && s.NamesData()
  {
    if lbn < SMALL_FILE_BLOCK then Root(lbn)
    else if lbn < LARGE_FILE_BLOCK then
      var n := lbn - SMALL_FILE_BLOCK; Entry(n / 128 + 6, n % 128)
    else
      var n := lbn - LARGE_FILE_BLOCK; Deep(n / (128 * 128) + 8, n / 128 % 128, n % 128)
  }

  /** The positions `Bmap` computes on its way down from the inode. */
  lemma LeafPath(lbn: int)
    requires 6 <= lbn < HUGE_FILE_BLOCK
    ensures lbn < LARGE_FILE_BLOCK ==>
              LeafSlot(lbn) == Entry((lbn - SMALL_FILE_BLOCK) / 128 + 6, (lbn - SMALL_FILE_BLOCK) % 128)
    ensures lbn >= LARGE_FILE_BLOCK ==>
              LeafSlot(lbn) == Deep((lbn - LARGE_FILE_BLOCK) / (128 * 128) + 8,
                                    (lbn - LARGE_FILE_BLOCK) / 128 % 128, (lbn - LARGE_FILE_BLOCK) % 128)
  {
  }

  lemma LeafSlotInjective(a: int, b: int)
    requires 0 <= a < HUGE_FILE_BLOCK && 0 <= b < HUGE_FILE_BLOCK
    requires LeafSlot(a) == LeafSlot(b)
    ensures a == b
  {
    if a >= LARGE_FILE_BLOCK {
      var m, n := a - LARGE_FILE_BLOCK, b - LARGE_FILE_BLOCK;
      assert m / (128 * 128) == m / 128 / 128 && n / (128 * 128) == n / 128 / 128;
    }
  }

  /** Every slot for data names exactly one logical block. */
  lemma LeafSlotOnto(s: Slot) returns (lbn: int)
    requires s.Valid() && s.NamesData()
    ensures 0 <= lbn < HUGE_FILE_BLOCK && LeafSlot(lbn) == s
  {
    match s
    case Root(i) => lbn := i;
    case Entry(i, j) => lbn := SMALL_FILE_BLOCK + (i - 6) * 128 + j;
    case Deep(i, j, k) =>
      lbn := LARGE_FILE_BLOCK + ((i - 8) * 128 + j) * 128 + k;
      var n := lbn - LARGE_FILE_BLOCK;
      assert n / 128 == (i - 8) * 128 + j && n % 128 == k;
      assert n / (128 * 128) == n / 128 / 128;
  }

  /** The order of the file: direct blocks, then those one table deep, then those two deep, each by position. */
  predicate Precedes(s: Slot, t: Slot) {
    match s
    case Root(i) => t.Root? ==> i < t.i
    case Entry(i, j) => !t.Root? && (t.Entry? ==> i < t.i || (i == t.i && j < t.j))
    case Deep(i, j, k) => t.Deep? && (i < t.i || (i == t.i && (j < t.j || (j == t.j && k < t.k))))
  }

  lemma {:induction false} LeafSlotOrdered(a: int, b: int)
    requires 0 <= a < b < HUGE_FILE_BLOCK
    ensures Precedes(LeafSlot(a), LeafSlot(b))
  {
    if SMALL_FILE_BLOCK <= a && b < LARGE_FILE_BLOCK {
      Digits(a - SMALL_FILE_BLOCK);
      Digits(b - SMALL_FILE_BLOCK);
    } else if a >= LARGE_FILE_BLOCK {
      DeepOrdered(a, b);
    }
  }

  lemma {:induction false} DeepOrdered(a: int, b: int)
    requires LARGE_FILE_BLOCK <= a < b
    ensures Precedes(LeafSlot(a), LeafSlot(b))
  {
    hide LeafSlot;
    var m, n := a - LARGE_FILE_BLOCK, b - LARGE_FILE_BLOCK;
    Digits(m);
    Digits(n);
    DeepSlot(a);
    DeepSlot(b);
    Lexicographic(m / (128 * 128), m / 128 % 128, m % 128, n / (128 * 128), n / 128 % 128, n % 128);
  }

  lemma {:induction false} Lexicographic(i: int, j: int, k: int, i': int, j': int, k': int)
    requires 0 <= j < 128 && 0 <= k < 128 && 0 <= j' < 128 && 0 <= k' < 128
    requires i * (128 * 128) + j * 128 + k < i' * (128 * 128) + j' * 128 + k'
    ensures i < i' || (i == i' && (j < j' || (j == j' && k < k')))
  {
  }

  lemma {:induction false} DeepSlot(lbn: int)
    requires LARGE_FILE_BLOCK <= lbn
    ensures var n := lbn - LARGE_FILE_BLOCK; LeafSlot(lbn) == Deep(n / (128 * 128) + 8, n / 128 % 128, n % 128)
  {
  }

  lemma {:induction false} Digits(n: int)
    requires 0 <= n
    ensures n == n / (128 * 128) * (128 * 128) + n / 128 % 128 * 128 + n % 128
    ensures n == n / 128 * 128 + n % 128 && 0 <= n % 128 < 128 && 0 <= n / 128 % 128 < 128
  {
    assert n / (128 * 128) == n / 128 / 128;
  }

  lemma DivModNext(n: int)
    requires n >= 0 && n % 128 != 127
    ensures (n + 1) / 128 == n / 128 && (n + 1) % 128 == n % 128 + 1
    ensures (n + 1) / (128 * 128) == n / (128 * 128)
  {
    assert n / (128 * 128) == n / 128 / 128 && (n + 1) / (128 * 128) == (n + 1) / 128 / 128;
  }

  /** Within one table, consecutive logical blocks lie in consecutive entries. */
  lemma LeafSlotNext(lbn: int)
    requires 6 <= lbn < HUGE_FILE_BLOCK && LeafSlot(lbn).Index() < 127
    ensures lbn + 1 < HUGE_FILE_BLOCK
    ensures LeafSlot(lbn + 1).Parent() == LeafSlot(lbn).Parent() && LeafSlot(lbn + 1).Index() == LeafSlot(lbn).Index() + 1
  {
    if lbn < LARGE_FILE_BLOCK {
      DivModNext(lbn - SMALL_FILE_BLOCK);
    } else {
      DivModNext(lbn - LARGE_FILE_BLOCK);
    }
  }

  // Giving a slot a fresh block.

  /** Writes `b` into an empty slot and zeroes block `b`. */
  function AttachAddr(addr: seq<int>, s: Slot, b: int): seq<int>
    requires |addr| == 10 && s.Valid()
  {
    if s.Root? then addr[s.i := b] else addr
  }

  function AttachDisk(addr: seq<int>, disk: seq<Block>, s: Slot, b: int): seq<Block>
    requires |addr| == 10 && s.Valid() && 0 < b < |disk| <= WORD_LIMIT
    requires !s.Root? ==> 0 < Val(addr, disk, s.Parent()) < |disk|
  {
    var cleared := disk[b := ZeroBlock()];
    if s.Root? then cleared
    else
      var p := Val(addr, disk, s.Parent());
      cleared[p := PutWord(cleared[p], s.Index(), b)]
  }

  lemma ZeroWord(j: int)
    requires 0 <= j < 128
    ensures Word(ZeroBlock(), j) == 0
  {
  }

  /** A table block that belongs to the tree and is neither the fresh block nor the slot's parent. */
  lemma OtherWord(addr: seq<int>, disk: seq<Block>, s: Slot, b: int, t: Slot)
    requires TreeOk(addr, disk) && s.Valid() && t.Valid() && 0 < b < |disk| <= WORD_LIMIT
    requires !s.Root? ==> 0 < Val(addr, disk, s.Parent())
    requires Val(addr, disk, s) == 0 && Apart(addr, disk, [b])
    requires !t.Root? && Val(addr, disk, t.Parent()) != 0 && t != s
    ensures var p := Val(addr, disk, t.Parent());
            ReadWord(AttachDisk(addr, disk, s, b), p, t.Index()) == ReadWord(disk, p, t.Index())
  {
    var p := Val(addr, disk, t.Parent());
    assert p in [p];
    assert p != b;
    if !s.Root? {
      var q := Val(addr, disk, s.Parent());
      assert q in [q];
      assert q != b;
      if q == p {
        assert s.Parent() == t.Parent();
        WordOfPut(disk[p], s.Index(), b, t.Index());
      }
    }
  }

  /** Attaching changes one slot and no other. */
  lemma AttachVal(addr: seq<int>, disk: seq<Block>, s: Slot, b: int, t: Slot)
    requires TreeOk(addr, disk) && s.Valid() && t.Valid() && 0 < b < |disk| <= WORD_LIMIT
    requires !s.Root? ==> 0 < Val(addr, disk, s.Parent())
    requires Val(addr, disk, s) == 0 && Apart(addr, disk, [b])
    ensures Val(AttachAddr(addr, s, b), AttachDisk(addr, disk, s, b), t)
         == if t == s then b else Val(addr, disk, t)
    decreases t.Deep?, t.Entry?
  {
    var addr', disk' := AttachAddr(addr, s, b), AttachDisk(addr, disk, s, b);
    if t.Root? {
    } else {
      var p := Val(addr, disk, t.Parent());
      AttachVal(addr, disk, s, b, t.Parent());
      if t == s {
        assert p in [p];
        WordOfPut(disk[p], s.Index(), b, s.Index());
      } else if t.Parent() == s {
        ZeroWord(t.Index());
        if !s.Root? {
          assert Val(addr, disk, s.Parent()) in [Val(addr, disk, s.Parent())];
        }
      } else if p != 0 {
        OtherWord(addr, disk, s, b, t);
      }
    }
  }

  lemma AttachKeepsTree(addr: seq<int>, disk: seq<Block>, s: Slot, b: int)
    requires TreeOk(addr, disk) && s.Valid() && 0 < b < |disk| <= WORD_LIMIT
    requires !s.Root? ==> 0 < Val(addr, disk, s.Parent())
    requires Val(addr, disk, s) == 0 && Apart(addr, disk, [b])
    ensures var addr', disk' := AttachAddr(addr, s, b), AttachDisk(addr, disk, s, b);
            && TreeOk(addr', disk')
            && forall t: Slot :: t.Valid() ==> Val(addr', disk', t) == if t == s then b else Val(addr, disk, t)
  {
    var addr', disk' := AttachAddr(addr, s, b), AttachDisk(addr, disk, s, b);
    forall t: Slot | t.Valid() ensures Val(addr', disk', t) == if t == s then b else Val(addr, disk, t) {
      AttachVal(addr, disk, s, b, t);
    }
    assert b in [b];
  }

  /** Blocks that are in no slot can be written without disturbing the index. */
  lemma ValFrame(addr: seq<int>, disk: seq<Block>, disk': seq<Block>, s: Slot)
    requires |addr| == 10 && s.Valid() && |disk'| == |disk|
    requires forall t: Slot :: t.Valid() && !t.NamesData() && 0 < Val(addr, disk, t) < |disk| ==>
               disk'[Val(addr, disk, t)] == disk[Val(addr, disk, t)]
    ensures Val(addr, disk', s) == Val(addr, disk, s)
    decreases s.Deep?, s.Entry?
  {
    if !s.Root? {
      ValFrame(addr, disk, disk', s.Parent());
      assert s.Parent().Valid() && !s.Parent().NamesData();
    }
  }

  lemma TreeFrame(addr: seq<int>, disk: seq<Block>, disk': seq<Block>)
    requires TreeOk(addr, disk) && |disk'| == |disk|
    requires forall t: Slot :: t.Valid() && !t.NamesData() && Val(addr, disk, t) != 0 ==>
               disk'[Val(addr, disk, t)] == disk[Val(addr, disk, t)]
    ensures TreeOk(addr, disk')
    ensures forall s: Slot :: s.Valid() ==> Val(addr, disk', s) == Val(addr, disk, s)
  {
    forall s: Slot | s.Valid() ensures Val(addr, disk', s) == Val(addr, disk, s) {
      ValFrame(addr, disk, disk', s);
    }
  }
}
