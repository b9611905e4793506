/** The order in which truncating a file gives up its blocks. */
module Truncation {
  import opened Sequences
  import opened Words
  import opened FreeList
  import opened IndexTree
  import opened BlockMap

  function Used(b: int): seq<int> {
    if b == 0 then [] else [b]
  }

  /** Entries 127 down to `k` of the second-level table at `Entry(i, j)`. */
  function DeepFrees(st: Store, i: int, j: int, k: int): seq<int>
    decreases 128 - k
  {
    if k >= 128 then [] else DeepFrees(st, i, j, k + 1) + Used(st.At(Deep(i, j, k)))
  }

  /** Entries 127 down to `j` of the table at `Root(i)`, each after what hangs below it. */
  function EntryFrees(st: Store, i: int, j: int): seq<int>
    decreases 128 - j
  {
    if j >= 128 then []
    else
      EntryFrees(st, i, j + 1)
      + (if i >= 8 && st.At(Entry(i, j)) != 0 then DeepFrees(st, i, j, 0) else [])
      + Used(st.At(Entry(i, j)))
  }

  /** Addresses 9 down to `i` of the inode, each after what hangs below it. */
  function RootFrees(st: Store, i: int): seq<int>
    decreases 10 - i
  {
    if i >= 10 then []
    else
      RootFrees(st, i + 1)
      + (if i >= 6 && st.At(Root(i)) != 0 then EntryFrees(st, i, 0) else [])
      + Used(st.At(Root(i)))
  }

  lemma {:induction false} FromDeep(st: Store, i: int, j: int, k: int, b: int) returns (s: Slot)
    requires b in DeepFrees(st, i, j, k) && 8 <= i < 10 && 0 <= j < 128 && 0 <= k
    ensures s.Valid() && s.Deep? && s.i == i && s.j == j && s.k >= k && st.At(s) == b != 0
    decreases 128 - k
  {
    if b in DeepFrees(st, i, j, k + 1) {
      s := FromDeep(st, i, j, k + 1, b);
    } else {
      s := Deep(i, j, k);
    }
  }

  lemma {:induction false} FromEntry(st: Store, i: int, j: int, b: int) returns (s: Slot)
    requires b in EntryFrees(st, i, j) && 6 <= i < 10 && 0 <= j
    ensures s.Valid() && !s.Root? && s.i == i && s.j >= j && st.At(s) == b != 0
    decreases 128 - j
  {
    if b in EntryFrees(st, i, j + 1) {
      s := FromEntry(st, i, j + 1, b);
    } else if i >= 8 && st.At(Entry(i, j)) != 0 && b in DeepFrees(st, i, j, 0) {
      s := FromDeep(st, i, j, 0, b);
    } else {
      s := Entry(i, j);
    }
  }

  /** Only blocks of the file are given up. */
  lemma {:induction false} FromRoot(st: Store, i: int, b: int) returns (s: Slot)
    requires b in RootFrees(st, i) && 0 <= i
    ensures s.Valid() && s.i >= i && st.At(s) == b != 0
    decreases 10 - i
  {
    if b in RootFrees(st, i + 1) {
      s := FromRoot(st, i + 1, b);
    } else if i >= 6 && st.At(Root(i)) != 0 && b in EntryFrees(st, i, 0) {
      s := FromEntry(st, i, 0, b);
    } else {
      s := Root(i);
    }
  }

  lemma {:induction false} InDeep(st: Store, s: Slot, k: int)
    requires s.Valid() && s.Deep? && k <= s.k && st.At(s) != 0
    ensures st.At(s) in DeepFrees(st, s.i, s.j, k)
    decreases s.k - k
  {
    hide Val;
    if k < s.k {
      InDeep(st, s, k + 1);
    }
  }

  lemma {:induction false} InEntry(st: Store, s: Slot, j: int)
    requires s.Valid() && !s.Root? && j <= s.j && st.At(s) != 0
    ensures st.At(s) in EntryFrees(st, s.i, j)
    decreases s.j - j
  {
    hide Val, DeepFrees;
    if j < s.j {
      InEntry(st, s, j + 1);
    } else if s.Deep? {
      InDeep(st, s, 0);
      ParentInUse(st, s);
    }
  }

  lemma ParentInUse(st: Store, s: Slot)
    requires s.Valid() && !s.Root? && st.At(s) != 0
    ensures st.At(s.Parent()) != 0
  {
  }

  /** Every block of the file is given up. */
  lemma {:induction false} InRoot(st: Store, s: Slot, i: int)
    requires s.Valid() && i <= s.i && st.At(s) != 0
    ensures st.At(s) in RootFrees(st, i)
    decreases s.i - i
  {
    hide Val, EntryFrees;
    if i < s.i {
      InRoot(st, s, i + 1);
    } else if !s.Root? {
      InEntry(st, s, 0);
      ParentInUse(st, s);
      if s.Deep? {
        ParentInUse(st, s.Parent());
      }
    }
  }

  /** What has been given up when the loops stand at a slot, just before that slot's own block. */
  function FreedBefore(st: Store, s: Slot): seq<int> {
    match s
    case Root(i) => RootFrees(st, i + 1) + (if i >= 6 then EntryFrees(st, i, 0) else [])
    case Entry(i, j) => RootFrees(st, i + 1) + EntryFrees(st, i, j + 1) + (if i >= 8 then DeepFrees(st, i, j, 0) else [])
    case Deep(i, j, k) => RootFrees(st, i + 1) + EntryFrees(st, i, j + 1) + DeepFrees(st, i, j, k + 1)
  }

  lemma OtherBlock(st: Store, s: Slot, t: Slot)
    requires st.Ok() && s.Valid() && t.Valid() && s != t && st.At(s) != 0
    ensures st.At(t) != st.At(s)
  {
  }

  lemma NotAmongRoots(st: Store, s: Slot)
    requires st.Ok() && s.Valid() && st.At(s) != 0
    ensures st.At(s) !in RootFrees(st, s.i + 1)
  {
    hide Store.Ok, Store.At, RootFrees, EntryFrees, DeepFrees;
    if st.At(s) in RootFrees(st, s.i + 1) {
      var t := FromRoot(st, s.i + 1, st.At(s));
      OtherBlock(st, s, t);
    }
  }

  lemma NotAmongEntries(st: Store, s: Slot, j: int)
    requires st.Ok() && s.Valid() && st.At(s) != 0 && s.i >= 6 && 0 <= j && (s.Root? || s.j < j)
    ensures st.At(s) !in EntryFrees(st, s.i, j)
  {
    hide Store.Ok, Store.At, RootFrees, EntryFrees, DeepFrees;
    if st.At(s) in EntryFrees(st, s.i, j) {
      var t := FromEntry(st, s.i, j, st.At(s));
      OtherBlock(st, s, t);
    }
  }

  lemma NotAmongDeeps(st: Store, s: Slot, j: int, k: int)
    requires st.Ok() && s.Valid() && st.At(s) != 0 && s.i >= 8 && 0 <= j < 128 && 0 <= k
    requires s.Deep? ==> s.j == j && s.k < k
    ensures st.At(s) !in DeepFrees(st, s.i, j, k)
  {
    hide Store.Ok, Store.At, RootFrees, EntryFrees, DeepFrees;
    if st.At(s) in DeepFrees(st, s.i, j, k) {
      var t := FromDeep(st, s.i, j, k, st.At(s));
      OtherBlock(st, s, t);
    }
  }

  /** No block is given up before its turn: in particular no table before everything below it. */
  lemma NotYet(st: Store, s: Slot)
    requires st.Ok() && s.Valid() && st.At(s) != 0
    ensures st.At(s) !in FreedBefore(st, s) && st.At(s) !in st.stack && 0 < st.At(s) < |st.disk|
  {
    hide Store.Ok, Store.At, RootFrees, EntryFrees, DeepFrees;
    InUse(st, s);
    NotAmongRoots(st, s);
    match s
    case Root(i) =>
      if i >= 6 {
        NotAmongEntries(st, s, 0);
      }
    case Entry(i, j) =>
      NotAmongEntries(st, s, j + 1);
      if i >= 8 {
        NotAmongDeeps(st, s, j, 0);
      }
    case Deep(i, j, k) =>
      NotAmongEntries(st, s, j + 1);
      NotAmongDeeps(st, s, j, k + 1);
  }

  /** Before any entry of a table is looked at. */
  lemma NoneYet(st: Store, i: int, j: int)
    ensures DeepFrees(st, i, j, 128) == [] && EntryFrees(st, i, 128) == [] && RootFrees(st, 10) == []
  {
  }

  lemma UnusedWord(st: Store, i: int, j: int, k: int)
    ensures 0 <= k < 128 && st.At(Deep(i, j, k)) == 0 ==> DeepFrees(st, i, j, k) == DeepFrees(st, i, j, k + 1)
    ensures 0 <= j < 128 && st.At(Entry(i, j)) == 0 ==> EntryFrees(st, i, j) == EntryFrees(st, i, j + 1)
    ensures 0 <= i < 10 && st.At(Root(i)) == 0 ==> RootFrees(st, i) == RootFrees(st, i + 1)
  {
    hide Val;
  }

  /** The same, just after that slot's own block. */
  function FreedWith(st: Store, s: Slot): seq<int> {
    match s
    case Root(i) => RootFrees(st, i)
    case Entry(i, j) => RootFrees(st, i + 1) + EntryFrees(st, i, j)
    case Deep(i, j, k) => RootFrees(st, i + 1) + EntryFrees(st, i, j + 1) + DeepFrees(st, i, j, k)
  }

  lemma UsedWord(st: Store, s: Slot)
    requires s.Valid() && st.At(s) != 0
    ensures FreedWith(st, s) == FreedBefore(st, s) + [st.At(s)]
  {
    hide Val;
  }

  /** Truncation gives up exactly the blocks of the file: afterwards whatever was not outside is free. */
  lemma AllGivenUp(st: Store, b: int)
    requires b > 0
    ensures b in st.stack + RootFrees(st, 0) <==> !st.Outside(b)
  {
    hide Val, RootFrees;
    if b in RootFrees(st, 0) {
      var s := FromRoot(st, 0, b);
    }
    forall s: Slot | s.Valid() && st.At(s) == b ensures b in RootFrees(st, 0) {
      InRoot(st, s, 0);
    }
  }

  lemma AllOutsideKept(st: Store, r: Store)
    requires |r.disk| == |st.disk| && r.stack == st.stack + RootFrees(st, 0) && r.addr == seq(10, _ => 0)
    requires forall b :: 0 <= b < |st.disk| && b !in RootFrees(st, 0) ==> r.disk[b] == st.disk[b]
    ensures KeepsOutside(st, r)
    ensures forall b :: b > 0 ==> (b in r.stack <==> !st.Outside(b))
  {
    forall b | b > 0 ensures b in r.stack <==> !st.Outside(b) {
      AllGivenUp(st, b);
    }
    hide RootFrees;
    forall s: Slot | s.Valid() ensures r.At(s) == 0 {
      assert r.At(Root(s.i)) == 0;
      if s.Deep? {
        assert r.At(s.Parent()) == 0;
      }
    }
  }
}
