/** What `Bmap` does to a file's index, the disk and the free blocks, as a function. */
module BlockMap {
  import opened Sequences
  import opened Words
  import opened FreeList
  import opened IndexTree

  /** One file's addresses, the disk, and the stack of free blocks. */
  datatype Store = Store(addr: seq<int>, disk: seq<Block>, stack: seq<int>) {
    function At(s: Slot): int {
      Val(addr, disk, s)
    }

    /** The tree is well formed, and no block is both free and in the file or free twice. */
    ghost predicate Ok() {
      && |addr| == 10 && |disk| <= WORD_LIMIT
      && TreeOk(addr, disk)
      && Distinct(stack) && InDisk(stack, disk)
      && Apart(addr, disk, stack)
    }

    function Top(): int
      requires stack != []
    {
      stack[|stack| - 1]
    }

    /** Gives empty slot `s` the top free block, cleared. */
    function Attach(s: Slot): Store
      requires |addr| == 10 && s.Valid() && stack != [] && 0 < Top() < |disk| <= WORD_LIMIT
      requires !s.Root? ==> 0 < At(s.Parent()) < |disk|
    {
      Store(AttachAddr(addr, s, Top()), AttachDisk(addr, disk, s, Top()), stack[..|stack| - 1])
    }

    /** How many blocks must be allocated before `s` has one. */
    function Missing(s: Slot): nat
      decreases s.Deep?, s.Entry?
    {
      (if s.Root? then 0 else Missing(s.Parent())) + (if At(s) == 0 then 1 else 0)
    }

    /** Neither free nor part of the file. */
    ghost predicate Outside(b: int) {
      b !in stack && forall s: Slot :: s.Valid() ==> At(s) != b
    }

    /** Blocks that hold tables of the file. */
    ghost predicate IsTable(b: int) {
      exists s: Slot :: s.Valid() && !s.NamesData() && At(s) == b != 0
    }
  }

  predicate OnPath(t: Slot, s: Slot) {
    t == s || (!s.Root? && (t == s.Parent() || (s.Deep? && t == Root(s.i))))
  }

  /** What one attachment changes and what it keeps. */
  lemma AttachFacts(st: Store, s: Slot)
    requires st.Ok() && s.Valid() && st.At(s) == 0 && st.stack != []
    requires !s.Root? ==> st.At(s.Parent()) != 0
    ensures 0 < st.Top() < |st.disk| && (!s.Root? ==> 0 < st.At(s.Parent()) < |st.disk|)
    ensures var r := st.Attach(s);
            && r.Ok() && |r.disk| == |st.disk|
            && (forall t: Slot :: t.Valid() ==> r.At(t) == if t == s then st.Top() else st.At(t))
            && (forall b :: 0 <= b < |st.disk| && b != st.Top() && !st.IsTable(b) ==> r.disk[b] == st.disk[b])
            && r.disk[st.Top()] == ZeroBlock()
  {
    var b := st.Top();
    assert b == st.stack[|st.stack| - 1];
    assert Apart(st.addr, st.disk, [b]) by {
      assert b in st.stack;
    }
    AttachKeepsTree(st.addr, st.disk, s, b);
    var r := st.Attach(s);
    forall t: Slot | t.Valid() && r.At(t) != 0 ensures r.At(t) !in r.stack {
      if t == s {
        assert b !in r.stack;
      } else {
        assert st.At(t) !in st.stack;
      }
    }
    forall i | 0 <= i < |r.stack| ensures 0 < r.stack[i] < |r.disk| {
      assert r.stack[i] == st.stack[i];
    }
    if !s.Root? {
      var p := st.At(s.Parent());
      assert st.IsTable(p);
      assert p in [p];
      assert p != b;
    }
  }

  /** Gives `s` a block unless it has one; the tables above it must be there. */
  function Fill(st: Store, s: Slot): (r: Store)
    requires st.Ok() && s.Valid()
    requires !s.Root? ==> st.At(s.Parent()) != 0
    requires st.At(s) == 0 ==> st.stack != []
    ensures r.Ok() && |r.disk| == |st.disk| && r.At(s) != 0
    ensures forall t: Slot :: t.Valid() && t != s ==> r.At(t) == st.At(t)
    ensures r.stack <= st.stack && |r.stack| == |st.stack| - (if st.At(s) == 0 then 1 else 0)
    ensures st.At(s) == 0 ==> r.At(s) in st.stack
    ensures 0 < r.At(s) < |r.disk| && r.At(s) !in r.stack
  {
    if st.At(s) != 0 then st
    else
      AttachFacts(st, s);
      assert st.Top() in st.stack;
      st.Attach(s)
  }

  /** Allocates whatever is missing on the way to `s`, nearest the inode first. */
  function Ensure(st: Store, s: Slot): (r: Store)
    requires st.Ok() && s.Valid() && st.Missing(s) <= |st.stack|
    ensures r.Ok() && |r.disk| == |st.disk| && r.At(s) != 0
    ensures |r.stack| == |st.stack| - st.Missing(s)
    ensures forall t: Slot :: t.Valid() && r.At(t) != st.At(t) ==> st.At(t) == 0 && r.At(t) in st.stack && OnPath(t, s)
    ensures r.stack <= st.stack
    decreases s.Deep?, s.Entry?
  {
    Fill(if s.Root? then st else Ensure(st, s.Parent()), s)
  }

  /** What the words of the inode and of a table in hand say about the slots in them. */
  lemma RootWord(st: Store, i: int)
    requires st.Ok() && 0 <= i < 10
    ensures st.At(Root(i)) == st.addr[i]
  {
  }

  lemma TableWord(st: Store, s: Slot)
    requires st.Ok() && s.Valid() && !s.Root? && st.At(s.Parent()) != 0
    ensures 0 < st.At(s.Parent()) < |st.disk|
    ensures st.At(s) == Word(st.disk[st.At(s.Parent())], s.Index())
  {
  }

  lemma InUse(st: Store, s: Slot)
    requires st.Ok() && s.Valid() && st.At(s) != 0
    ensures 0 < st.At(s) < |st.disk| && st.At(s) !in st.stack
  {
  }

  lemma EnsureStep(st: Store, s: Slot)
    requires st.Ok() && s.Valid() && !s.Root? && st.Missing(s) <= |st.stack|
    ensures st.Missing(s.Parent()) <= |st.stack|
    ensures var up := Ensure(st, s.Parent());
            && (up.At(s) == 0 ==> up.stack != [])
            && Ensure(st, s) == Fill(up, s)
  {
  }

  /** Besides free blocks, `Ensure` writes only tables of the file. */
  lemma {:induction false} EnsureWrites(st: Store, s: Slot, b: int)
    requires st.Ok() && s.Valid() && st.Missing(s) <= |st.stack|
    requires 0 <= b < |st.disk| && b !in st.stack && !st.IsTable(b)
    ensures Ensure(st, s).disk[b] == st.disk[b]
    decreases s.Deep?, s.Entry?
  {
    var up := st;
    if !s.Root? {
      EnsureWrites(st, s.Parent(), b);
      up := Ensure(st, s.Parent());
    }
    if up.At(s) == 0 {
      AttachFacts(up, s);
      assert up.Top() in up.stack;
      assert !up.IsTable(b);
    }
  }

  /** Different logical blocks lie in different blocks, none of which is free or holds a table. */
  lemma {:induction false} MappedBlocksDiffer(st: Store, a: int, b: int)
    requires st.Ok() && 0 <= a < HUGE_FILE_BLOCK && 0 <= b < HUGE_FILE_BLOCK && a != b && st.At(LeafSlot(a)) != 0
    ensures st.At(LeafSlot(a)) != st.At(LeafSlot(b))
    ensures st.At(LeafSlot(a)) !in st.stack && !st.IsTable(st.At(LeafSlot(a)))
  {
    hide LeafSlot, Val;
    if LeafSlot(a) == LeafSlot(b) {
      LeafSlotInjective(a, b);
    }
  }

  /** What is mapped stays where it is. */
  ghost predicate KeepsMapping(st: Store, r: Store) {
    forall s: Slot :: s.Valid() && st.At(s) != 0 ==> r.At(s) == st.At(s)
  }

  lemma KeepsMappingTrans(a: Store, b: Store, c: Store)
    requires KeepsMapping(a, b) && KeepsMapping(b, c)
    ensures KeepsMapping(a, c)
  {
    hide Val;
  }

  /** Every block that the bytes from `from` up to `to` lie in has its place on the disk. */
  ghost predicate Mapped(st: Store, from: int, to: int) {
    from < to ==>
      forall lbn :: 0 <= from / BLOCK_SIZE <= lbn < HUGE_FILE_BLOCK && lbn * BLOCK_SIZE < to ==> st.At(LeafSlot(lbn)) != 0
  }

  /** Going from `st` to `r`, every block outside stayed outside and kept its contents. */
  ghost predicate KeepsOutside(st: Store, r: Store) {
    |r.disk| == |st.disk| &&
    forall b :: 0 < b < |st.disk| && st.Outside(b) ==> r.Outside(b) && r.disk[b] == st.disk[b]
  }

  lemma KeepsOutsideTrans(a: Store, b: Store, c: Store)
    requires KeepsOutside(a, b) && KeepsOutside(b, c)
    ensures KeepsOutside(a, c)
  {
    hide Store.Outside;
  }

  lemma EnsureKeepsOutside(st: Store, s: Slot)
    requires st.Ok() && s.Valid() && st.Missing(s) <= |st.stack|
    ensures KeepsOutside(st, Ensure(st, s))
  {
    hide TreeOk, Apart, Distinct, InDisk, Val, OnPath, Ensure;
    var r := Ensure(st, s);
    forall b | 0 < b < |st.disk| && st.Outside(b) ensures r.Outside(b) && r.disk[b] == st.disk[b] {
      assert !st.IsTable(b);
      EnsureWrites(st, s, b);
    }
  }

  /**
   What one file's operations mean for another file on the same disk: if none of the other file's
   blocks is free or belongs to the first, they keep their places, their contents and that property.
   */
  lemma OtherFileKept(st: Store, r: Store, other: seq<int>)
    requires KeepsOutside(st, r) && TreeOk(other, st.disk)
    requires forall t: Slot :: t.Valid() && Val(other, st.disk, t) != 0 ==> st.Outside(Val(other, st.disk, t))
    ensures TreeOk(other, r.disk)
    ensures forall t: Slot :: t.Valid() ==>
      var v := Val(other, st.disk, t);
      && Val(other, r.disk, t) == v
      && (v != 0 ==> r.Outside(v) && r.disk[v] == st.disk[v])
  {
    hide Store.Outside;
    TreeFrame(other, st.disk, r.disk);
  }
}
