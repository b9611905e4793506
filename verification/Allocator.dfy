/**
 First-fit allocation from a table of free regions, kept sorted, merged and ended by a zeroed node.
 */
module Allocators {
  datatype MapNode = MapNode(m_AddressIdx: int, m_Size: int) {
    function End(): int {
      m_AddressIdx + m_Size
    }
  }

  const NONE := MapNode(0, 0)

  /** Regions in order, none empty, none touching the next. */
  ghost predicate Canonical(ns: seq<MapNode>) {
    ns == [] ||
      (ns[0].m_AddressIdx > 0 && ns[0].m_Size > 0 && (|ns| > 1 ==> ns[0].End() < ns[1].m_AddressIdx) && Canonical(ns[1..]))
  }

  /** The table holds `ns`, and zeroed nodes behind. */
  ghost predicate Holds(a: seq<MapNode>, ns: seq<MapNode>) {
    && |ns| < |a| && Canonical(ns)
    && forall i :: 0 <= i < |a| ==> a[i] == if i < |ns| then ns[i] else NONE
  }

  function Range(addr: int, size: int): set<int>
    decreases size
  {
    if size <= 0 then {} else Range(addr, size - 1) + {addr + size - 1}
  }

  lemma {:induction false} InRange(addr: int, size: int)
    ensures forall x :: x in Range(addr, size) <==> addr <= x < addr + size
    decreases size
  {
    if size > 0 {
      InRange(addr, size - 1);
    }
  }

  lemma {:induction false} RangeJoin(addr: int, size: int, more: int)
    requires size >= 0 && more >= 0
    ensures Range(addr, size + more) == Range(addr, size) + Range(addr + size, more)
    decreases more
  {
    if more > 0 {
      RangeJoin(addr, size, more - 1);
    }
  }

  /** The units that are free. */
  ghost function FreeSet(ns: seq<MapNode>): set<int> {
    if ns == [] then {} else Range(ns[0].m_AddressIdx, ns[0].m_Size) + FreeSet(ns[1..])
  }

  lemma {:induction false} FreeSetAbove(ns: seq<MapNode>, x: int)
    requires Canonical(ns) && x in FreeSet(ns)
    ensures ns != [] && ns[0].m_AddressIdx <= x
    ensures x >= ns[0].End() ==> |ns| > 1 && ns[1].m_AddressIdx <= x
  {
    InRange(ns[0].m_AddressIdx, ns[0].m_Size);
    if x !in Range(ns[0].m_AddressIdx, ns[0].m_Size) {
      FreeSetAbove(ns[1..], x);
    }
  }

  lemma SomethingFree(ns: seq<MapNode>)
    requires Canonical(ns)
    ensures ns != [] ==> ns[0].m_AddressIdx in FreeSet(ns)
  {
    if ns != [] {
      InRange(ns[0].m_AddressIdx, ns[0].m_Size);
    }
  }

  /** The table is determined by what is free. */
  lemma {:induction false} CanonicalUnique(ns: seq<MapNode>, ms: seq<MapNode>)
    requires Canonical(ns) && Canonical(ms) && FreeSet(ns) == FreeSet(ms)
    ensures ns == ms
  {
    SomethingFree(ns);
    SomethingFree(ms);
    if ns != [] && ms != [] {
      SameFirst(ns, ms);
      SameRest(ns, ms);
      CanonicalUnique(ns[1..], ms[1..]);
    }
  }

  lemma {:induction false} SameFirst(ns: seq<MapNode>, ms: seq<MapNode>)
    requires Canonical(ns) && Canonical(ms) && ns != [] && ms != [] && FreeSet(ns) == FreeSet(ms)
    ensures ns[0] == ms[0]
  {
    var a, b := ns[0], ms[0];
    InRange(a.m_AddressIdx, a.m_Size);
    InRange(b.m_AddressIdx, b.m_Size);
    assert a.m_AddressIdx in FreeSet(ns) && b.m_AddressIdx in FreeSet(ms);
    FreeSetAbove(ns, b.m_AddressIdx);
    FreeSetAbove(ms, a.m_AddressIdx);
    if a.End() < b.End() {
      assert a.End() in FreeSet(ms);
      FreeSetAbove(ns, a.End());
    } else if b.End() < a.End() {
      assert b.End() in FreeSet(ns);
      FreeSetAbove(ms, b.End());
    }
  }

  lemma {:induction false} SameRest(ns: seq<MapNode>, ms: seq<MapNode>)
    requires Canonical(ns) && Canonical(ms) && ns != [] && ms != [] && ns[0] == ms[0] && FreeSet(ns) == FreeSet(ms)
    ensures FreeSet(ns[1..]) == FreeSet(ms[1..])
  {
    var r := Range(ns[0].m_AddressIdx, ns[0].m_Size);
    RestApart(ns);
    RestApart(ms);
    assert FreeSet(ns[1..]) == FreeSet(ns) - r;
    assert FreeSet(ms[1..]) == FreeSet(ms) - r;
  }

  lemma {:induction false} RestApart(ns: seq<MapNode>)
    requires Canonical(ns) && ns != []
    ensures Range(ns[0].m_AddressIdx, ns[0].m_Size) !! FreeSet(ns[1..])
  {
    InRange(ns[0].m_AddressIdx, ns[0].m_Size);
    forall x | x in FreeSet(ns[1..]) ensures x !in Range(ns[0].m_AddressIdx, ns[0].m_Size) {
      FreeSetAbove(ns[1..], x);
    }
  }

  // Tables put together from parts.

  lemma {:induction false} FreeSetConcat(a: seq<MapNode>, b: seq<MapNode>)
    ensures FreeSet(a + b) == FreeSet(a) + FreeSet(b)
  {
    if a == [] {
      assert a + b == b;
    } else {
      FreeSetConcat(a[1..], b);
      assert (a + b)[1..] == a[1..] + b;
    }
  }

  predicate Before(a: seq<MapNode>, b: seq<MapNode>) {
    a == [] || b == [] || a[|a| - 1].End() < b[0].m_AddressIdx
  }

  lemma {:induction false} CanonicalConcat(a: seq<MapNode>, b: seq<MapNode>)
    ensures Canonical(a + b) <==> Canonical(a) && Canonical(b) && Before(a, b)
  {
    if a == [] {
      assert a + b == b;
    } else {
      CanonicalConcat(a[1..], b);
      assert (a + b)[1..] == a[1..] + b;
    }
  }

  lemma {:induction false} CanonicalOne(n: MapNode)
    ensures Canonical([n]) <==> n.m_AddressIdx > 0 && n.m_Size > 0
    ensures FreeSet([n]) == Range(n.m_AddressIdx, n.m_Size)
  {
    assert [n][1..] == [];
  }

  /** A canonical table around its region `k`. */
  lemma {:induction false} Around(ns: seq<MapNode>, k: nat)
    requires Canonical(ns) && k < |ns|
    ensures var a, n, b := ns[..k], ns[k], ns[k + 1..];
            && ns == a + [n] + b && Canonical(a) && Canonical(b) && n.m_AddressIdx > 0 && n.m_Size > 0
            && Before(a, [n]) && Before([n], b) && Before(a, b)
            && FreeSet(ns) == FreeSet(a) + Range(n.m_AddressIdx, n.m_Size) + FreeSet(b)
  {
    var a, n, b := ns[..k], ns[k], ns[k + 1..];
    assert ns == a + [n] + b;
    CanonicalConcat(a + [n], b);
    CanonicalConcat(a, [n]);
    CanonicalOne(n);
    FreeSetConcat(a + [n], b);
    FreeSetConcat(a, [n]);
  }

  lemma {:induction false} Joined(a: seq<MapNode>, n: MapNode, b: seq<MapNode>)
    requires Canonical(a) && Canonical(b) && Before(a, [n]) && Before([n], b) && n.m_AddressIdx > 0 && n.m_Size > 0
    ensures Canonical(a + [n] + b)
    ensures FreeSet(a + [n] + b) == FreeSet(a) + Range(n.m_AddressIdx, n.m_Size) + FreeSet(b)
  {
    CanonicalConcat(a + [n], b);
    CanonicalConcat(a, [n]);
    CanonicalOne(n);
    FreeSetConcat(a + [n], b);
    FreeSetConcat(a, [n]);
  }

  lemma {:induction false} AllBefore(a: seq<MapNode>, x: int)
    requires Canonical(a) && x in FreeSet(a)
    ensures a != [] && x < a[|a| - 1].End()
  {
    InRange(a[0].m_AddressIdx, a[0].m_Size);
    if x !in Range(a[0].m_AddressIdx, a[0].m_Size) {
      AllBefore(a[1..], x);
    } else if |a| > 1 {
      SomethingFree(a[1..]);
      AllBefore(a[1..], a[1].m_AddressIdx);
    }
  }

  lemma {:induction false} AllBeyond(b: seq<MapNode>, x: int)
    requires Canonical(b) && x in FreeSet(b)
    ensures b != [] && b[0].m_AddressIdx <= x
  {
    FreeSetAbove(b, x);
  }

  // Allocation.

  /** The first region that is large enough; the number of regions if there is none. */
  function FirstFit(ns: seq<MapNode>, size: int): (k: nat)
    ensures k <= |ns| && (k < |ns| ==> ns[k].m_Size >= size) && forall i :: 0 <= i < k ==> ns[i].m_Size < size
  {
    if ns == [] || ns[0].m_Size >= size then 0 else 1 + FirstFit(ns[1..], size)
  }

  /** The regions left when the front of region `k` is taken. */
  function Taken(ns: seq<MapNode>, k: nat, size: int): seq<MapNode>
    requires k < |ns|
  {
    if ns[k].m_Size == size then ns[..k] + ns[k + 1..]
    else ns[k := MapNode(ns[k].m_AddressIdx + size, ns[k].m_Size - size)]
  }

  /** Taking the front of a region removes just those units from what is free. */
  lemma {:induction false} TakenIsRemoved(ns: seq<MapNode>, k: nat, size: int)
    requires Canonical(ns) && k < |ns| && 0 <= size <= ns[k].m_Size
    ensures Canonical(Taken(ns, k, size))
    ensures FreeSet(Taken(ns, k, size)) == FreeSet(ns) - Range(ns[k].m_AddressIdx, size)
    ensures Range(ns[k].m_AddressIdx, size) <= FreeSet(ns)
  {
    hide Canonical, FreeSet, Range;
    var a, n, b := ns[..k], ns[k], ns[k + 1..];
    Around(ns, k);
    RangeJoin(n.m_AddressIdx, size, n.m_Size - size);
    FrontApart(a, n, b, size);
    if n.m_Size == size {
      CanonicalConcat(a, b);
      FreeSetConcat(a, b);
    } else {
      var m := MapNode(n.m_AddressIdx + size, n.m_Size - size);
      Joined(a, m, b);
      assert Taken(ns, k, size) == a + [m] + b;
    }
  }

  /** The front of a region shares nothing with the rest of it and with the other regions. */
  lemma {:induction false} FrontApart(a: seq<MapNode>, n: MapNode, b: seq<MapNode>, size: int)
    requires Canonical(a) && Canonical(b) && Before(a, [n]) && Before([n], b) && 0 <= size <= n.m_Size
    ensures var front := Range(n.m_AddressIdx, size);
            front !! FreeSet(a) && front !! FreeSet(b) && front !! Range(n.m_AddressIdx + size, n.m_Size - size)
    ensures size == n.m_Size ==> Range(n.m_AddressIdx + size, n.m_Size - size) == {}
  {
    var from, left := n.m_AddressIdx + size, n.m_Size - size;
    var front, rest := Range(n.m_AddressIdx, size), Range(from, left);
    InRange(n.m_AddressIdx, size);
    InRange(from, left);
    forall x | x in front ensures x !in rest && x !in FreeSet(a) && x !in FreeSet(b) {
      if x in FreeSet(a) {
        AllBefore(a, x);
      }
      if x in FreeSet(b) {
        AllBeyond(b, x);
      }
    }
  }

  // Release.

  /** The first region that starts beyond `addr`. */
  function Beyond(ns: seq<MapNode>, addr: int): (k: nat)
    ensures k <= |ns| && (k < |ns| ==> ns[k].m_AddressIdx > addr) && forall i :: 0 <= i < k ==> ns[i].m_AddressIdx <= addr
  {
    if ns == [] || ns[0].m_AddressIdx > addr then 0 else 1 + Beyond(ns[1..], addr)
  }

  function Released(ns: seq<MapNode>, size: int, addr: int): seq<MapNode> {
    var k := Beyond(ns, addr);
    var joins := k < |ns| && addr + size == ns[k].m_AddressIdx;
    if k > 0 && ns[k - 1].End() == addr then
      if joins then ns[..k - 1] + [MapNode(ns[k - 1].m_AddressIdx, ns[k - 1].m_Size + size + ns[k].m_Size)] + ns[k + 1..]
      else ns[k - 1 := MapNode(ns[k - 1].m_AddressIdx, ns[k - 1].m_Size + size)]
    else if joins then ns[k := MapNode(addr, size + ns[k].m_Size)]
    else if size > 0 then ns[..k] + [MapNode(addr, size)] + ns[k..]
    else ns
  }

  /** Where a block that is in use lies: behind the end of the region before, up to the start of the next. */
  lemma {:induction false} Gap(ns: seq<MapNode>, size: int, addr: int)
    requires Canonical(ns) && size > 0 && Range(addr, size) !! FreeSet(ns)
    ensures var k := Beyond(ns, addr);
            && (k > 0 ==> ns[k - 1].End() <= addr)
            && (k < |ns| ==> addr + size <= ns[k].m_AddressIdx)
  {
    InRange(addr, size);
    var k := Beyond(ns, addr);
    if k > 0 {
      Around(ns, k - 1);
      InRange(ns[k - 1].m_AddressIdx, ns[k - 1].m_Size);
    }
    if k < |ns| {
      Around(ns, k);
      InRange(ns[k].m_AddressIdx, ns[k].m_Size);
      assert ns[k].m_AddressIdx in FreeSet(ns);
    }
  }

  lemma {:induction false} GrownAtEnd(a: set<int>, p: set<int>, r: set<int>, b: set<int>)
    ensures a + (p + r) + b == (a + p + b) + r
  {
  }

  lemma {:induction false} GrownAtFront(a: set<int>, r: set<int>, n: set<int>, b: set<int>)
    ensures a + (r + n) + b == (a + n + b) + r
  {
  }

  lemma {:induction false} PutBetween(a: set<int>, r: set<int>, b: set<int>)
    ensures a + r + b == (a + b) + r
  {
  }

  /** Releasing a block adds just its units to what is free, and merges it with its neighbours. */
  lemma {:induction false} ReleasedIsAdded(ns: seq<MapNode>, size: int, addr: int)
    requires Canonical(ns) && size > 0 && addr > 0 && Range(addr, size) !! FreeSet(ns)
    ensures Canonical(Released(ns, size, addr))
    ensures FreeSet(Released(ns, size, addr)) == FreeSet(ns) + Range(addr, size)
  {
    Gap(ns, size, addr);
    var k := Beyond(ns, addr);
    if k > 0 && ns[k - 1].End() == addr {
      if k < |ns| && addr + size == ns[k].m_AddressIdx {
        ReleasedIntoGap(ns, size, addr, k);
      } else {
        ReleasedBehind(ns, size, addr, k);
      }
    } else if k < |ns| && addr + size == ns[k].m_AddressIdx {
      ReleasedInFront(ns, size, addr, k);
    } else {
      ReleasedBetween(ns, size, addr, k);
    }
  }

  lemma {:induction false} ReleasedBetween(ns: seq<MapNode>, size: int, addr: int, k: nat)
    requires Canonical(ns) && size > 0 && addr > 0 && k == Beyond(ns, addr)
    requires (k > 0 ==> ns[k - 1].End() < addr) && (k < |ns| ==> addr + size < ns[k].m_AddressIdx)
    ensures Canonical(Released(ns, size, addr))
    ensures FreeSet(Released(ns, size, addr)) == FreeSet(ns) + Range(addr, size)
  {
    hide Canonical, FreeSet, Range, Beyond;
    assert ns == ns[..k] + ns[k..];
    CanonicalConcat(ns[..k], ns[k..]);
    FreeSetConcat(ns[..k], ns[k..]);
    Joined(ns[..k], MapNode(addr, size), ns[k..]);
    PutBetween(FreeSet(ns[..k]), Range(addr, size), FreeSet(ns[k..]));
  }

  lemma {:induction false} ReleasedInFront(ns: seq<MapNode>, size: int, addr: int, k: nat)
    requires Canonical(ns) && size > 0 && addr > 0 && k == Beyond(ns, addr) && k < |ns|
    requires (k > 0 ==> ns[k - 1].End() < addr) && addr + size == ns[k].m_AddressIdx
    ensures Canonical(Released(ns, size, addr))
    ensures FreeSet(Released(ns, size, addr)) == FreeSet(ns) + Range(addr, size)
  {
    hide Canonical, FreeSet, Range, Beyond;
    Around(ns, k);
    var m := MapNode(addr, size + ns[k].m_Size);
    Joined(ns[..k], m, ns[k + 1..]);
    assert Released(ns, size, addr) == ns[..k] + [m] + ns[k + 1..];
    RangeJoin(addr, size, ns[k].m_Size);
    GrownAtFront(FreeSet(ns[..k]), Range(addr, size), Range(ns[k].m_AddressIdx, ns[k].m_Size), FreeSet(ns[k + 1..]));
  }

  lemma {:induction false} ReleasedBehind(ns: seq<MapNode>, size: int, addr: int, k: nat)
    requires Canonical(ns) && size > 0 && 0 < k == Beyond(ns, addr) && ns[k - 1].End() == addr
    requires k < |ns| ==> addr + size < ns[k].m_AddressIdx
    ensures Canonical(Released(ns, size, addr))
    ensures FreeSet(Released(ns, size, addr)) == FreeSet(ns) + Range(addr, size)
  {
    hide Canonical, FreeSet, Range, Beyond;
    var a, p, b := ns[..k - 1], ns[k - 1], ns[k..];
    Around(ns, k - 1);
    RangeJoin(p.m_AddressIdx, p.m_Size, size);
    var m := MapNode(p.m_AddressIdx, p.m_Size + size);
    Joined(a, m, b);
    assert Released(ns, size, addr) == a + [m] + b;
    GrownAtEnd(FreeSet(a), Range(p.m_AddressIdx, p.m_Size), Range(addr, size), FreeSet(b));
  }

  lemma {:induction false} ReleasedIntoGap(ns: seq<MapNode>, size: int, addr: int, k: nat)
    requires Canonical(ns) && size > 0 && 0 < k == Beyond(ns, addr) < |ns|
    requires ns[k - 1].End() == addr && addr + size == ns[k].m_AddressIdx
    ensures Canonical(Released(ns, size, addr))
    ensures FreeSet(Released(ns, size, addr)) == FreeSet(ns) + Range(addr, size)
  {
    hide Canonical, FreeSet, Range, Beyond;
    var a, p, n, b := ns[..k - 1], ns[k - 1], ns[k], ns[k + 1..];
    Around(ns, k - 1);
    Around(ns, k);
    RangeJoin(p.m_AddressIdx, p.m_Size, size);
    RangeJoin(p.m_AddressIdx, p.m_Size + size, n.m_Size);
    Joined(a, MapNode(p.m_AddressIdx, p.m_Size + size + n.m_Size), b);
    assert ns[k..] == [n] + b;
    Peel([n] + b);
    FiveParts(FreeSet(a), Range(p.m_AddressIdx, p.m_Size), Range(addr, size), Range(n.m_AddressIdx, n.m_Size), FreeSet(b));
  }

  lemma {:induction false} Peel(b: seq<MapNode>)
    requires b != []
    ensures FreeSet(b) == Range(b[0].m_AddressIdx, b[0].m_Size) + FreeSet(b[1..])
  {
  }

  lemma {:induction false} FiveParts(a: set<int>, p: set<int>, r: set<int>, n: set<int>, b: set<int>)
    ensures a + ((p + r) + n) + b == (a + p + (n + b)) + r
  {
  }

  lemma {:induction false} ReleasedNothing(ns: seq<MapNode>, addr: int)
    ensures Released(ns, 0, addr) == ns
  {
  }

  // The table in its array.

  /** From position `at` on the array holds `ns`, and zeroed nodes behind. */
  ghost predicate Tail(a: seq<MapNode>, at: nat, ns: seq<MapNode>) {
    && at + |ns| < |a| && (forall i :: 0 <= i < |ns| ==> ns[i].m_Size != 0)
    && forall i :: at <= i < |a| ==> a[i] == if i < at + |ns| then ns[i - at] else NONE
  }

  lemma {:induction false} PositiveSizes(ns: seq<MapNode>)
    requires Canonical(ns)
    ensures forall i :: 0 <= i < |ns| ==> ns[i].m_Size > 0 && ns[i].m_AddressIdx > 0
  {
    forall i | 0 <= i < |ns| ensures ns[i].m_Size > 0 && ns[i].m_AddressIdx > 0 {
      Around(ns, i);
    }
  }

  lemma {:induction false} SplitTable(a: seq<MapNode>, ns: seq<MapNode>, k: nat)
    requires Holds(a, ns) && k <= |ns|
    ensures a[..k] == ns[..k] && Tail(a, k, ns[k..])
  {
    PositiveSizes(ns);
  }

  lemma {:induction false} Together(a: seq<MapNode>, front: seq<MapNode>, back: seq<MapNode>)
    requires |front| <= |a| && a[..|front|] == front && Tail(a, |front|, back) && Canonical(front + back)
    ensures Holds(a, front + back)
  {
    forall i | 0 <= i < |a| ensures a[i] == if i < |front + back| then (front + back)[i] else NONE {
      if i < |front| {
        assert a[i] == a[..|front|][i];
      }
    }
  }

  /** Moves everything behind node `j` one place to the front, over it. */
  method CloseGap(nodes: array<MapNode>, j: nat, ghost rest: seq<MapNode>)
    requires Tail(nodes[..], j + 1, rest)
    modifies nodes
    ensures Tail(nodes[..], j, rest) && nodes[..j] == old(nodes[..j])
  {
    var p, next := j, j + 1;
    ghost var was := nodes[..];
    while nodes[next].m_Size != 0
      invariant j <= p && next == p + 1 <= j + 1 + |rest|
      invariant forall i :: j <= i < p ==> nodes[i] == rest[i - j]
      invariant forall i :: p <= i < nodes.Length ==> nodes[i] == was[i]
      invariant nodes[..j] == was[..j]
      decreases nodes.Length - p
    {
      nodes[p] := nodes[next];
      p, next := p + 1, next + 1;
    }
    nodes[p] := NONE;
  }

  /** Puts a node in place `k`, everything from there on moving one place to the back. */
  method OpenGap(nodes: array<MapNode>, k: nat, node: MapNode, ghost rest: seq<MapNode>)
    requires Tail(nodes[..], k, rest) && k + |rest| + 1 < nodes.Length && node.m_Size != 0
    modifies nodes
    ensures Tail(nodes[..], k, [node] + rest) && nodes[..k] == old(nodes[..k])
  {
    var p, tmp := k, node;
    ghost var was := nodes[..];
    while nodes[p].m_Size != 0
      invariant k <= p <= k + |rest| && tmp == ([node] + rest)[p - k]
      invariant forall i :: k <= i < p ==> nodes[i] == ([node] + rest)[i - k]
      invariant forall i :: p <= i < nodes.Length ==> nodes[i] == was[i]
      invariant nodes[..k] == was[..k]
      decreases nodes.Length - p
    {
      nodes[p], tmp := tmp, nodes[p];
      p := p + 1;
    }
    nodes[p] := tmp;
  }

  /** Takes `size` units off the front of the first region that has them; 0 if there is none. */
  method Alloc(nodes: array<MapNode>, size: nat, ghost ns: seq<MapNode>) returns (retIdx: int, ghost ns': seq<MapNode>)
    requires Holds(nodes[..], ns)
    modifies nodes
    ensures Holds(nodes[..], ns')
    ensures var k := FirstFit(ns, size);
            if k == |ns| then retIdx == 0 && ns' == ns else retIdx == ns[k].m_AddressIdx && ns' == Taken(ns, k, size)
  {
    hide Canonical;
    PositiveSizes(ns);
    var i := 0;
    while nodes[i].m_Size != 0
      invariant i <= |ns| && nodes[..] == old(nodes[..])
      invariant forall x :: 0 <= x < i ==> ns[x].m_Size < size
      decreases nodes.Length - i
    {
      if nodes[i].m_Size >= size {
        FirstFitIs(ns, size, i);
        TakenIsRemoved(ns, i, size);
        retIdx := nodes[i].m_AddressIdx;
        ns' := Taken(ns, i, size);
        SplitTable(nodes[..], ns, i);
        if nodes[i].m_Size == size {
          SplitTable(nodes[..], ns, i + 1);
          CloseGap(nodes, i, ns[i + 1..]);
          Together(nodes[..], ns[..i], ns[i + 1..]);
        } else {
          nodes[i] := MapNode(nodes[i].m_AddressIdx + size, nodes[i].m_Size - size);
        }
        return;
      }
      i := i + 1;
    }
    FirstFitIs(ns, size, i);
    return 0, ns;
  }

  lemma {:induction false} FirstFitIs(ns: seq<MapNode>, size: int, k: nat)
    requires k <= |ns| && (k < |ns| ==> ns[k].m_Size >= size) && forall i :: 0 <= i < k ==> ns[i].m_Size < size
    ensures FirstFit(ns, size) == k
  {
  }

  lemma {:induction false} BeyondIs(ns: seq<MapNode>, addr: int, k: nat)
    requires k <= |ns| && (k < |ns| ==> ns[k].m_AddressIdx > addr) && forall i :: 0 <= i < k ==> ns[i].m_AddressIdx <= addr
    ensures Beyond(ns, addr) == k
  {
  }

  /** The block ends the region before it, and may close the gap to the next. */
  method MergeBehind(nodes: array<MapNode>, size: nat, addrIdx: int, k: nat, ghost ns: seq<MapNode>)
    requires Holds(nodes[..], ns) && 0 < k == Beyond(ns, addrIdx) && addrIdx == ns[k - 1].End() > 0
    requires Canonical(Released(ns, size, addrIdx)) && forall i :: 0 <= i < |ns| ==> ns[i].m_Size > 0 && ns[i].m_AddressIdx > 0
    modifies nodes
    ensures Holds(nodes[..], Released(ns, size, addrIdx))
  {
    hide Canonical, Range, FreeSet, Beyond;
    ghost var ns' := Released(ns, size, addrIdx);
    nodes[k - 1] := nodes[k - 1].(m_Size := nodes[k - 1].m_Size + size);
    if addrIdx + size == nodes[k].m_AddressIdx {
      nodes[k - 1] := nodes[k - 1].(m_Size := nodes[k - 1].m_Size + nodes[k].m_Size);
      CloseGap(nodes, k, ns[k + 1..]);
      assert ns' == ns'[..k] + ns[k + 1..];
      Together(nodes[..], ns'[..k], ns[k + 1..]);
    }
  }

  /** The block does not touch the region before it: it extends the next one or becomes a region of its own. */
  method MergeInFront(nodes: array<MapNode>, size: nat, addrIdx: int, k: nat, ghost ns: seq<MapNode>)
    requires Holds(nodes[..], ns) && k == Beyond(ns, addrIdx) && (k > 0 ==> addrIdx != ns[k - 1].End())
    requires Canonical(Released(ns, size, addrIdx)) && addrIdx > 0 && |ns| + 1 < nodes.Length
    requires forall i :: 0 <= i < |ns| ==> ns[i].m_Size > 0 && ns[i].m_AddressIdx > 0
    modifies nodes
    ensures Holds(nodes[..], Released(ns, size, addrIdx))
  {
    hide Canonical, Range, FreeSet, Beyond;
    if addrIdx + size == nodes[k].m_AddressIdx && nodes[k].m_Size != 0 {
      nodes[k] := MapNode(addrIdx, nodes[k].m_Size + size);
    } else if size != 0 {
      Insert(nodes, size, addrIdx, k, ns);
    }
  }

  method Insert(nodes: array<MapNode>, size: nat, addrIdx: int, k: nat, ghost ns: seq<MapNode>)
    requires Holds(nodes[..], ns) && k <= |ns| && |ns| + 1 < nodes.Length && size > 0
    requires Canonical(ns[..k] + [MapNode(addrIdx, size)] + ns[k..])
    modifies nodes
    ensures Holds(nodes[..], ns[..k] + [MapNode(addrIdx, size)] + ns[k..])
  {
    hide Canonical;
    SplitTable(nodes[..], ns, k);
    ghost var back := [MapNode(addrIdx, size)] + ns[k..];
    OpenGap(nodes, k, MapNode(addrIdx, size), ns[k..]);
    assert ns[..k] + [MapNode(addrIdx, size)] + ns[k..] == ns[..k] + back;
    Together(nodes[..], ns[..k], back);
  }

  /** Gives a block back, merging it with the free regions on either side. */
  method Free(nodes: array<MapNode>, size: nat, addrIdx: int, ghost ns: seq<MapNode>) returns (ghost ns': seq<MapNode>)
    requires Holds(nodes[..], ns) && |ns| + 1 < nodes.Length
    requires addrIdx > 0 && Range(addrIdx, size) !! FreeSet(ns)
    modifies nodes
    ensures Holds(nodes[..], ns') && ns' == Released(ns, size, addrIdx)
  {
    hide Canonical, Range, FreeSet, Released;
    PositiveSizes(ns);
    ReleasedNothing(ns, addrIdx);
    if size > 0 {
      ReleasedIsAdded(ns, size, addrIdx);
    }
    ns' := Released(ns, size, addrIdx);
    var k := 0;
    while nodes[k].m_AddressIdx <= addrIdx && nodes[k].m_Size != 0
      invariant k <= |ns| && nodes[..] == old(nodes[..])
      invariant forall x :: 0 <= x < k ==> ns[x].m_AddressIdx <= addrIdx
      decreases nodes.Length - k
    {
      k := k + 1;
    }
    BeyondIs(ns, addrIdx, k);
    if k > 0 && addrIdx == nodes[k - 1].End() {
      MergeBehind(nodes, size, addrIdx, k, ns);
    } else {
      MergeInFront(nodes, size, addrIdx, k, ns);
    }
  }

  // Any order of releases leads to the same table.

  datatype Extent = Extent(addr: int, size: nat)

  ghost function UnitsOf(bs: seq<Extent>): set<int> {
    if bs == [] then {} else UnitsOf(bs[..|bs| - 1]) + Range(bs[|bs| - 1].addr, bs[|bs| - 1].size)
  }

  /** Blocks that are all in use, none overlapping another. */
  ghost predicate Outstanding(ns: seq<MapNode>, bs: seq<Extent>) {
    bs == [] ||
      (var b := bs[|bs| - 1];
       && Outstanding(ns, bs[..|bs| - 1])
       && b.addr > 0 && b.size > 0
       && Range(b.addr, b.size) !! FreeSet(ns) && Range(b.addr, b.size) !! UnitsOf(bs[..|bs| - 1]))
  }

  function FreeAll(ns: seq<MapNode>, bs: seq<Extent>): seq<MapNode> {
    if bs == [] then ns else Released(FreeAll(ns, bs[..|bs| - 1]), bs[|bs| - 1].size, bs[|bs| - 1].addr)
  }

  lemma {:induction false} FreeAllAdds(ns: seq<MapNode>, bs: seq<Extent>)
    requires Canonical(ns) && Outstanding(ns, bs)
    ensures Canonical(FreeAll(ns, bs)) && FreeSet(FreeAll(ns, bs)) == FreeSet(ns) + UnitsOf(bs)
  {
    hide Canonical, FreeSet, Range, Released;
    if bs != [] {
      var b := bs[|bs| - 1];
      FreeAllAdds(ns, bs[..|bs| - 1]);
      ReleasedIsAdded(FreeAll(ns, bs[..|bs| - 1]), b.size, b.addr);
    }
  }

  /** Releasing the same units gives the same table, whatever the blocks and their order. */
  lemma {:induction false} FreeInAnyOrder(ns: seq<MapNode>, bs: seq<Extent>, cs: seq<Extent>)
    requires Canonical(ns) && Outstanding(ns, bs) && Outstanding(ns, cs) && UnitsOf(bs) == UnitsOf(cs)
    ensures FreeAll(ns, bs) == FreeAll(ns, cs)
  {
    hide Canonical, FreeSet, Range, Released;
    FreeAllAdds(ns, bs);
    FreeAllAdds(ns, cs);
    CanonicalUnique(FreeAll(ns, bs), FreeAll(ns, cs));
  }

  /** Releasing everything that is in use brings the initial single region back. */
  lemma {:induction false} FreeEverything(ns: seq<MapNode>, bs: seq<Extent>, pool: MapNode)
    requires Canonical(ns) && Outstanding(ns, bs) && pool.m_AddressIdx > 0 && pool.m_Size > 0
    requires FreeSet(ns) + UnitsOf(bs) == Range(pool.m_AddressIdx, pool.m_Size)
    ensures FreeAll(ns, bs) == [pool]
  {
    hide Canonical, FreeSet, Range, Released;
    FreeAllAdds(ns, bs);
    CanonicalOne(pool);
    CanonicalUnique(FreeAll(ns, bs), [pool]);
  }

  /** Releasing what was just allocated brings the old table back. */
  lemma {:induction false} FreeUndoesAlloc(ns: seq<MapNode>, size: int)
    requires Canonical(ns) && size > 0 && FirstFit(ns, size) < |ns|
    ensures var k := FirstFit(ns, size); Released(Taken(ns, k, size), size, ns[k].m_AddressIdx) == ns
  {
    hide Canonical, FreeSet, Range, Released, Taken;
    var k := FirstFit(ns, size);
    Around(ns, k);
    TakenIsRemoved(ns, k, size);
    var t, r := Taken(ns, k, size), Range(ns[k].m_AddressIdx, size);
    ReleasedIsAdded(t, size, ns[k].m_AddressIdx);
    assert FreeSet(ns) - r + r == FreeSet(ns);
    CanonicalUnique(Released(t, size, ns[k].m_AddressIdx), ns);
  }
}
