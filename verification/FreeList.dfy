/**
 The list of free disk blocks. The superblock holds the top group of at most 100 numbers;
 entry 0 of a group names the block in which the next group down is stored, or is 0 at the bottom.
 */
module FreeList {
  import opened Sequences
  import opened Words

  const GROUP_SIZE := 100

  /** `s_nfree` and `s_free` of the superblock. */
  datatype Group = Group(nfree: int, free: seq<int>)

  ghost predicate Table(free: seq<int>) {
    |free| == GROUP_SIZE && forall k :: 0 <= k < GROUP_SIZE ==> 0 <= free[k] < WORD_LIMIT
  }

  /** The group that a linking block stores: its count, then its 100 entries. */
  function Stored(b: Block): Group {
    Group(Word(b, 0), WordRange(b, 1, 1 + GROUP_SIZE))
  }

  /** `spine` lists the linking blocks, nearest first. */
  ghost predicate Chain(g: Group, disk: seq<Block>, spine: seq<int>)
    decreases |spine|
  {
    && Table(g.free)
    && 1 <= g.nfree <= GROUP_SIZE
    && if g.free[0] == 0 then spine == []
       else
         && spine != []
         && spine[0] == g.free[0] < |disk|
         && Chain(Stored(disk[g.free[0]]), disk, spine[1..])
  }

  /** A list is a chain, or the exhausted state a failed allocation leaves behind. */
  ghost predicate IsList(g: Group, disk: seq<Block>, spine: seq<int>) {
    (g.nfree == 0 && Table(g.free) && spine == []) || Chain(g, disk, spine)
  }

  lemma TableOfList(g: Group, disk: seq<Block>, spine: seq<int>)
    requires FreeOk(g, disk, spine)
    ensures Table(g.free) && 0 <= g.nfree <= GROUP_SIZE
  {
  }

  /** The free blocks as one stack, the next block to be allocated last. */
  ghost function Stack(g: Group, disk: seq<Block>, spine: seq<int>): (s: seq<int>)
    requires IsList(g, disk, spine)
    decreases |spine|
  {
    if g.nfree == 0 then []
    else (if spine == [] then [] else Stack(Stored(disk[spine[0]]), disk, spine[1..]) + [spine[0]])
         + g.free[1..g.nfree]
  }

  ghost predicate InDisk(s: seq<int>, disk: seq<Block>) {
    forall i :: 0 <= i < |s| ==> 0 < s[i] < |disk|
  }

  ghost predicate FreeOk(g: Group, disk: seq<Block>, spine: seq<int>) {
    IsList(g, disk, spine) && Distinct(Stack(g, disk, spine)) && InDisk(Stack(g, disk, spine), disk)
  }

  lemma {:induction false} SpineOnStack(g: Group, disk: seq<Block>, spine: seq<int>, b: int)
    requires IsList(g, disk, spine) && b in spine
    ensures b in Stack(g, disk, spine)
    decreases |spine|
  {
    if b != spine[0] {
      SpineOnStack(Stored(disk[spine[0]]), disk, spine[1..], b);
    }
  }

  /** Writing blocks that are not on the list's spine leaves the list as it was. */
  lemma {:induction false} ChainFrame(g: Group, disk: seq<Block>, disk': seq<Block>, spine: seq<int>)
    requires IsList(g, disk, spine) && |disk'| == |disk|
    requires forall b :: b in spine && 0 <= b < |disk| ==> disk'[b] == disk[b]
    ensures IsList(g, disk', spine) && Stack(g, disk', spine) == Stack(g, disk, spine)
    decreases |spine|
  {
    if spine != [] {
      assert spine[0] in spine;
      ChainFrame(Stored(disk[spine[0]]), disk, disk', spine[1..]);
    }
  }

  /** Writes to blocks that are not free keep the whole free list. */
  lemma WriteKeepsFreeOk(g: Group, disk: seq<Block>, disk': seq<Block>, spine: seq<int>)
    requires FreeOk(g, disk, spine) && |disk'| == |disk|
    requires forall b :: 0 <= b < |disk| && b in Stack(g, disk, spine) ==> disk'[b] == disk[b]
    ensures FreeOk(g, disk', spine) && Stack(g, disk', spine) == Stack(g, disk, spine)
  {
    forall b | b in spine && 0 <= b < |disk| ensures disk'[b] == disk[b] {
      SpineOnStack(g, disk, spine, b);
    }
    ChainFrame(g, disk, disk', spine);
  }

  // Allocation and release as functions of the superblock's group.

  /** The group `Alloc` leaves behind; only meaningful when it does not fail. */
  function AfterAlloc(g: Group, disk: seq<Block>): Group
    requires 1 <= g.nfree <= |g.free| && (g.nfree == 1 ==> 0 <= g.free[0] < |disk|)
  {
    if g.nfree == 1 then Stored(disk[g.free[0]]) else g.(nfree := g.nfree - 1)
  }

  /** The group `Free` leaves behind. */
  function AfterFree(g: Group, b: int): Group
    requires |g.free| == GROUP_SIZE
  {
    if g.nfree <= 0 then Group(2, g.free[0 := 0][1 := b])
    else if g.nfree >= GROUP_SIZE then Group(1, g.free[0 := b])
    else Group(g.nfree + 1, g.free[g.nfree := b])
  }

  /** What `Free` stores into the released block when the group is full; bytes past the table are left alone. */
  function Spilled(g: Group, buf: Block): (r: Block)
    requires g.nfree == GROUP_SIZE == |g.free|
    requires forall k :: 0 <= k < GROUP_SIZE ==> 0 <= g.free[k] < WORD_LIMIT
  {
    PutWords(PutWord(buf, 0, g.nfree), 1, g.free)
  }

  lemma StoredOfSpilled(g: Group, buf: Block)
    requires g.nfree == GROUP_SIZE && Table(g.free)
    ensures Stored(Spilled(g, buf)) == g
  {
    var first := PutWord(buf, 0, g.nfree);
    WordOfPuts(first, 1, g.free, 0);
    WordOfPut(buf, 0, g.nfree, 0);
    forall k | 0 <= k < GROUP_SIZE ensures Word(Spilled(g, buf), 1 + k) == g.free[k] {
      WordOfPuts(first, 1, g.free, 1 + k);
    }
    assert WordRange(Spilled(g, buf), 1, 1 + GROUP_SIZE) == g.free;
  }

  /** The part of the stack below the superblock's own group. */
  ghost function Below(disk: seq<Block>, spine: seq<int>): seq<int>
    requires spine != [] ==> 0 <= spine[0] < |disk| && IsList(Stored(disk[spine[0]]), disk, spine[1..])
  {
    if spine == [] then [] else Stack(Stored(disk[spine[0]]), disk, spine[1..]) + [spine[0]]
  }

  lemma DropLast(a: seq<int>, b: seq<int>)
    requires b != []
    ensures (a + b)[|a + b| - 1] == b[|b| - 1] && (a + b)[..|a + b| - 1] == a + b[..|b| - 1]
  {
  }

  lemma PrefixOfOk(s: seq<int>, disk: seq<Block>)
    requires s != [] && Distinct(s) && InDisk(s, disk)
    ensures 0 < s[|s| - 1] < |disk| && s[|s| - 1] !in s[..|s| - 1]
    ensures Distinct(s[..|s| - 1]) && InDisk(s[..|s| - 1], disk)
  {
  }

  ghost predicate Pops(g: Group, disk: seq<Block>, s: seq<int>, spine': seq<int>) {
    && s != [] && 1 <= g.nfree <= GROUP_SIZE == |g.free|
    && 0 < g.free[g.nfree - 1] == s[|s| - 1] < |disk|
    && FreeOk(AfterAlloc(g, disk), disk, spine')
    && Stack(AfterAlloc(g, disk), disk, spine') == s[..|s| - 1]
    && s[|s| - 1] !in s[..|s| - 1]
    && AfterAlloc(g, disk).nfree >= 1
  }

  lemma {:induction false} ShorterSlice(f: seq<int>, n: int)
    requires 2 <= n <= |f|
    ensures f[1..n][..n - 2] == f[1..n - 1]
  {
  }

  /** The table without its last entry is the list without the top of the stack. */
  lemma {:induction false} ShorterStack(g: Group, disk: seq<Block>, spine: seq<int>)
    requires IsList(g, disk, spine) && g.nfree >= 2
    ensures var h, s := g.(nfree := g.nfree - 1), Stack(g, disk, spine);
            && IsList(h, disk, spine) && s != [] && s[|s| - 1] == g.free[g.nfree - 1]
            && Stack(h, disk, spine) == s[..|s| - 1]
  {
    hide Stored;
    var h := g.(nfree := g.nfree - 1);
    assert Chain(h, disk, spine);
    assert Stack(g, disk, spine) == Below(disk, spine) + g.free[1..g.nfree];
    assert Stack(h, disk, spine) == Below(disk, spine) + h.free[1..h.nfree];
    ShorterSlice(g.free, g.nfree);
    DropLast(Below(disk, spine), g.free[1..g.nfree]);
  }

  lemma PopsInGroup(g: Group, disk: seq<Block>, spine: seq<int>)
    requires FreeOk(g, disk, spine) && g.nfree >= 2
    ensures Pops(g, disk, Stack(g, disk, spine), spine)
  {
    hide Stored, Distinct, InDisk, Stack;
    ShorterStack(g, disk, spine);
    PrefixOfOk(Stack(g, disk, spine), disk);
  }

  /** With one entry left, the stack is the next group's stack with the linking block on top. */
  lemma StackOverLink(g: Group, disk: seq<Block>, spine: seq<int>)
    requires IsList(g, disk, spine) && g.nfree == 1 && spine != []
    ensures |g.free| == GROUP_SIZE && 0 < g.free[0] == spine[0] < |disk|
    ensures AfterAlloc(g, disk) == Stored(disk[spine[0]]) && AfterAlloc(g, disk).nfree >= 1
    ensures IsList(AfterAlloc(g, disk), disk, spine[1..])
    ensures Stack(g, disk, spine) == Stack(AfterAlloc(g, disk), disk, spine[1..]) + [spine[0]]
  {
    hide Stored;
    assert Chain(Stored(disk[g.free[0]]), disk, spine[1..]);
    assert g.free[1..1] == [];
  }

  lemma PopsLink(g: Group, disk: seq<Block>, spine: seq<int>)
    requires FreeOk(g, disk, spine) && g.nfree == 1 && spine != []
    ensures Pops(g, disk, Stack(g, disk, spine), spine[1..])
  {
    hide Stored, Distinct, InDisk, Stack, IsList, AfterAlloc;
    StackOverLink(g, disk, spine);
    DropLast(Stack(AfterAlloc(g, disk), disk, spine[1..]), [spine[0]]);
    PrefixOfOk(Stack(g, disk, spine), disk);
  }

  /** `Alloc` pops: it fails exactly on the empty stack and otherwise takes its last element. */
  lemma AllocPops(g: Group, disk: seq<Block>, spine: seq<int>) returns (spine': seq<int>)
    requires FreeOk(g, disk, spine) && g.nfree >= 1
    ensures g.nfree <= GROUP_SIZE == |g.free|
    ensures g.free[g.nfree - 1] == 0 <==> Stack(g, disk, spine) == []
    ensures Stack(g, disk, spine) == [] ==>
              var none := g.(nfree := 0); FreeOk(none, disk, spine') && Stack(none, disk, spine') == []
    ensures Stack(g, disk, spine) != [] ==> Pops(g, disk, Stack(g, disk, spine), spine')
  {
    hide Stored, Distinct, InDisk;
    spine' := if g.nfree == 1 && spine != [] then spine[1..] else spine;
    if g.nfree >= 2 {
      PopsInGroup(g, disk, spine);
    } else if spine != [] {
      PopsLink(g, disk, spine);
    } else {
      assert g.free[1..1] == [];
    }
  }

  /** Pushing into a group that still has room. */
  lemma PushesInGroup(g: Group, disk: seq<Block>, spine: seq<int>, b: int)
    requires IsList(g, disk, spine) && g.nfree < GROUP_SIZE && 0 < b < |disk| <= WORD_LIMIT
    ensures IsList(AfterFree(g, b), disk, spine)
    ensures Stack(AfterFree(g, b), disk, spine) == Stack(g, disk, spine) + [b]
  {
    var g' := AfterFree(g, b);
    if g.nfree == 0 {
      assert g'.free[1..2] == [b];
    } else {
      assert Stack(g, disk, spine) == Below(disk, spine) + g.free[1..g.nfree];
      assert g'.free[1..g.nfree + 1] == g.free[1..g.nfree] + [b];
      assert g'.free[0] == g.free[0];
    }
  }

  /** Pushing into a full group: the group moves into the released block, which becomes the new link. */
  lemma PushesWithSpill(g: Group, disk: seq<Block>, spine: seq<int>, b: int, buf: Block)
    requires IsList(g, disk, spine) && g.nfree == GROUP_SIZE && 0 < b < |disk| <= WORD_LIMIT
    requires b !in Stack(g, disk, spine)
    ensures var disk' := disk[b := Spilled(g, buf)];
            && IsList(AfterFree(g, b), disk', [b] + spine)
            && Stack(AfterFree(g, b), disk', [b] + spine) == Stack(g, disk, spine) + [b]
  {
    var disk' := disk[b := Spilled(g, buf)];
    var spine' := [b] + spine;
    assert spine'[1..] == spine;
    StoredOfSpilled(g, buf);
    forall c | c in spine && 0 <= c < |disk| ensures disk'[c] == disk[c] {
      SpineOnStack(g, disk, spine, c);
    }
    ChainFrame(g, disk, disk', spine);
    var g' := AfterFree(g, b);
    assert Stored(disk'[b]) == g;
    assert Chain(g', disk', spine');
    assert g'.free[1..1] == [];
  }

  /** `Free` pushes, also when the group is full and spills into the released block itself. */
  lemma FreePushes(g: Group, disk: seq<Block>, spine: seq<int>, b: int, buf: Block)
    returns (spine': seq<int>)
    requires FreeOk(g, disk, spine) && 0 < b < |disk| <= WORD_LIMIT && b !in Stack(g, disk, spine)
    ensures var disk' := if g.nfree == GROUP_SIZE then disk[b := Spilled(g, buf)] else disk;
            && FreeOk(AfterFree(g, b), disk', spine')
            && Stack(AfterFree(g, b), disk', spine') == Stack(g, disk, spine) + [b]
  {
    if g.nfree == GROUP_SIZE {
      spine' := [b] + spine;
      PushesWithSpill(g, disk, spine, b, buf);
    } else {
      spine' := spine;
      PushesInGroup(g, disk, spine, b);
    }
  }

  /**
   Releasing a block and allocating again returns that block and brings back the superblock's group:
   its count and every entry below it, also across a spill. Only the exhausted group comes back in its
   other form, the lone 0 sentinel.
   */
  lemma AllocAfterFree(g: Group, disk: seq<Block>, b: int, buf: Block)
    requires Table(g.free) && 0 <= g.nfree <= GROUP_SIZE && 0 < b < |disk|
    ensures var g' := AfterFree(g, b);
            var disk' := if g.nfree == GROUP_SIZE then disk[b := Spilled(g, buf)] else disk;
            && g'.free[g'.nfree - 1] == b
            && var h := AfterAlloc(g', disk');
               if g.nfree == 0 then h.nfree == 1 && h.free[0] == 0
               else h.nfree == g.nfree && h.free[..h.nfree] == g.free[..g.nfree]
  {
    if g.nfree == GROUP_SIZE {
      StoredOfSpilled(g, buf);
    }
  }
}
