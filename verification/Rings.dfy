/**
 Doubly linked rings over an array of nodes: `forw[x]` and `back[x]` are the numbers of the nodes
 after and before `x`, and a header closes the ring.
 */
module Rings {
  import opened Sequences

  /** Position `i` on the way from header `h` through `r` and back to `h`. */
  function Stop(h: int, r: seq<int>, i: int): int {
    if 0 < i <= |r| then r[i - 1] else h
  }

  predicate Nodes(h: int, r: seq<int>, n: int) {
    0 <= h < n && h !in r && forall i :: 0 <= i < |r| ==> 0 <= r[i] < n
  }

  /** The links between positions `i` and `i + 1`. */
  predicate Linked(forw: seq<int>, back: seq<int>, h: int, r: seq<int>, i: int) {
    var x, y := Stop(h, r, i), Stop(h, r, i + 1);
    0 <= x < |forw| && 0 <= y < |back| && forw[x] == y && back[y] == x
  }

  ghost predicate Ring(forw: seq<int>, back: seq<int>, h: int, r: seq<int>) {
    && |forw| == |back| && Nodes(h, r, |forw|) && Distinct(r)
    && forall i :: 0 <= i <= |r| ==> Linked(forw, back, h, r, i)
  }

  ghost function IndexOf(s: seq<int>, x: int): (k: int)
    requires x in s
    ensures 0 <= k < |s| && s[k] == x
  {
    if s[0] == x then 0 else 1 + IndexOf(s[1..], x)
  }

  lemma {:induction false} WithoutAt(s: seq<int>, k: int)
    requires 0 <= k < |s| && Distinct(s)
    ensures Without(s, s[k]) == s[..k] + s[k + 1..]
  {
    var n := |s| - 1;
    if k < n {
      WithoutAt(s[..n], k);
      assert s[..n][..k] + s[..n][k + 1..] + [s[n]] == s[..k] + s[k + 1..];
    }
  }

  lemma {:induction false} DistinctAt(s: seq<int>, i: int, j: int)
    requires Distinct(s) && 0 <= i < |s| && 0 <= j < |s| && s[i] == s[j]
    ensures i == j
  {
    var n := |s| - 1;
    if i < n && j < n {
      DistinctAt(s[..n], i, j);
    }
  }

  /** No node is passed twice, but for the header at both ends. */
  lemma StopsDistinct(h: int, r: seq<int>, i: int, j: int)
    requires Distinct(r) && h !in r && 0 <= i <= |r| && 0 <= j <= |r| && Stop(h, r, i) == Stop(h, r, j)
    ensures i == j
  {
    if i > 0 && j > 0 {
      DistinctAt(r, i - 1, j - 1);
    }
  }

  /** Links outside a ring do not matter to it. */
  lemma RingFrame(forw: seq<int>, back: seq<int>, forw': seq<int>, back': seq<int>, h: int, r: seq<int>)
    requires Ring(forw, back, h, r) && |forw'| == |back'| == |forw|
    requires forall x :: 0 <= x < |forw| && (x == h || x in r) ==> forw'[x] == forw[x] && back'[x] == back[x]
    ensures Ring(forw', back', h, r)
  {
    hide Distinct;
    forall i | 0 <= i <= |r| ensures Linked(forw', back', h, r, i) {
      assert Linked(forw, back, h, r, i);
      assert 0 < i ==> r[i - 1] in r;
    }
  }

  lemma NextInRing(forw: seq<int>, back: seq<int>, h: int, r: seq<int>, b: int)
    requires Ring(forw, back, h, r) && (b in r || b == h)
    ensures 0 <= b < |forw| && (forw[b] in r || forw[b] == h) && (back[b] in r || back[b] == h)
    ensures 0 <= forw[b] < |forw| && 0 <= back[b] < |forw|
  {
    if b in r {
      var k := IndexOf(r, b);
      assert b == Stop(h, r, k + 1);
      assert Linked(forw, back, h, r, k) && Linked(forw, back, h, r, k + 1);
    } else {
      assert Linked(forw, back, h, r, 0) && Linked(forw, back, h, r, |r|);
    }
  }

  lemma BackDistinct(h: int, r: seq<int>, i: int, j: int)
    requires Distinct(r) && h !in r && 1 <= i <= |r| + 1 && 1 <= j <= |r| + 1 && i != j
    ensures Stop(h, r, i) != Stop(h, r, j)
  {
    if i <= |r| && j <= |r| && r[i - 1] == r[j - 1] {
      DistinctAt(r, i - 1, j - 1);
    }
  }

  lemma UnlinkAt(forw: seq<int>, back: seq<int>, h: int, r: seq<int>, k: int, i: int)
    requires Ring(forw, back, h, r) && 0 <= k < |r| && 0 <= i < |r|
    ensures var r' := r[..k] + r[k + 1..];
            var b, p, n := Stop(h, r, k + 1), Stop(h, r, k), Stop(h, r, k + 2);
            && 0 <= b < |forw| && 0 <= p < |forw| && 0 <= n < |forw| && forw[b] == n && back[b] == p
            && Linked(forw[p := n], back[n := p], h, r', i)
  {
    hide Distinct;
    assert Linked(forw, back, h, r, k) && Linked(forw, back, h, r, k + 1);
    var r' := r[..k] + r[k + 1..];
    var j := if i <= k then i else i + 1;
    assert Stop(h, r', i) == Stop(h, r, j);
    assert Stop(h, r', i + 1) == if i < k then Stop(h, r, i + 1) else Stop(h, r, i + 2);
    assert Linked(forw, back, h, r, j);
    if i != k {
      if Stop(h, r, j) == Stop(h, r, k) {
        StopsDistinct(h, r, j, k);
      }
      BackDistinct(h, r, j + 1, k + 2);
    }
  }

  /** The two assignments that take a node out of its ring. */
  lemma Unlink(forw: seq<int>, back: seq<int>, h: int, r: seq<int>, b: int)
    requires Ring(forw, back, h, r) && b in r
    ensures 0 <= b < |forw| && 0 <= forw[b] < |forw| && 0 <= back[b] < |forw|
    ensures back[b] != b && Ring(forw[back[b] := forw[b]], back[forw[b] := back[b]], h, Without(r, b))
  {
    hide Distinct, Stop, Linked;
    var k := IndexOf(r, b);
    PrevIsOther(forw, back, h, r, k);
    NextInRing(forw, back, h, r, b);
    WithoutAt(r, k);
    DistinctWithout(r, b);
    var r' := Without(r, b);
    assert b == Stop(h, r, k + 1) by {
      StopAt(h, r, k);
    }
    var forw', back' := forw[back[b] := forw[b]], back[forw[b] := back[b]];
    forall i | 0 <= i <= |r'| ensures Linked(forw', back', h, r', i) {
      UnlinkAt(forw, back, h, r, k, i);
    }
    forall i | 0 <= i < |r'| ensures 0 <= r'[i] < |forw| {
      assert r'[i] in r';
    }
  }

  lemma PrevIsOther(forw: seq<int>, back: seq<int>, h: int, r: seq<int>, k: int)
    requires Ring(forw, back, h, r) && 0 <= k < |r|
    ensures back[r[k]] != r[k]
  {
    hide Distinct;
    assert Linked(forw, back, h, r, k);
    if Stop(h, r, k) == Stop(h, r, k + 1) {
      StopsDistinct(h, r, k, k + 1);
    }
  }

  lemma StopAt(h: int, r: seq<int>, k: int)
    requires 0 <= k < |r|
    ensures Stop(h, r, k + 1) == r[k]
  {
  }

  /** The four assignments that put a node right behind the header. */
  lemma InsertFirst(forw: seq<int>, back: seq<int>, h: int, r: seq<int>, b: int)
    requires Ring(forw, back, h, r) && b !in r && b != h && 0 <= b < |forw|
    ensures 0 <= forw[h] < |forw|
    ensures Ring(forw[b := forw[h]][h := b], back[b := h][forw[h] := b], h, [b] + r)
  {
    hide Distinct;
    NextInRing(forw, back, h, r, h);
    DistinctCons(b, r);
    var r' := [b] + r;
    var forw', back' := forw[b := forw[h]][h := b], back[b := h][forw[h] := b];
    assert Linked(forw, back, h, r, 0);
    forall i | 0 <= i <= |r'| ensures Linked(forw', back', h, r', i) {
      if i > 1 {
        assert Stop(h, r', i) == Stop(h, r, i - 1) && Stop(h, r', i + 1) == Stop(h, r, i);
        assert Linked(forw, back, h, r, i - 1);
        BackDistinct(h, r, i, 1);
      } else if i == 1 {
        assert Stop(h, r', i + 1) == Stop(h, r, i);
      }
    }
  }

  /** The four assignments that put a node right before the header. */
  lemma InsertLast(forw: seq<int>, back: seq<int>, h: int, r: seq<int>, b: int)
    requires Ring(forw, back, h, r) && b !in r && b != h && 0 <= b < |forw|
    ensures 0 <= back[h] < |forw|
    ensures Ring(forw[back[h] := b][b := h], back[b := back[h]][h := b], h, r + [b])
  {
    hide Distinct;
    NextInRing(forw, back, h, r, h);
    DistinctSnoc(r, b);
    var n := |r|;
    var r' := r + [b];
    var forw', back' := forw[back[h] := b][b := h], back[b := back[h]][h := b];
    assert Linked(forw, back, h, r, n);
    forall i | 0 <= i <= |r'| ensures Linked(forw', back', h, r', i) {
      if i < n {
        assert Stop(h, r', i) == Stop(h, r, i) && Stop(h, r', i + 1) == Stop(h, r, i + 1);
        assert Linked(forw, back, h, r, i);
        if Stop(h, r, i) == Stop(h, r, n) {
          StopsDistinct(h, r, i, n);
        }
      } else if i == n {
        assert Stop(h, r', i) == Stop(h, r, n) && Stop(h, r', i + 1) == b;
      }
    }
  }

  // The disk queue: a chain through `forw` that ends in NULL.

  const NULL := -1

  function Next(q: seq<int>, i: int): int {
    if 0 <= i < |q| - 1 then q[i + 1] else NULL
  }

  ghost predicate Chain(forw: seq<int>, q: seq<int>, head: int, last: int) {
    && Distinct(q) && (forall i :: 0 <= i < |q| ==> 0 <= q[i] < |forw|)
    && if q == [] then head == NULL
       else
         && head == q[0] && last == q[|q| - 1]
         && forall i :: 0 <= i < |q| ==> forw[q[i]] == Next(q, i)
  }

  lemma ChainFrame(forw: seq<int>, forw': seq<int>, q: seq<int>, head: int, last: int)
    requires Chain(forw, q, head, last) && |forw'| == |forw|
    requires forall x :: x in q ==> forw'[x] == forw[x]
    ensures Chain(forw', q, head, last)
  {
    hide Distinct;
  }

  lemma ChainAppend(forw: seq<int>, q: seq<int>, head: int, last: int, b: int)
    requires Chain(forw, q, head, last) && b !in q && 0 <= b < |forw|
    ensures q == [] ==> Chain(forw[b := NULL], [b], b, b)
    ensures q != [] ==> 0 <= last < |forw| && Chain(forw[b := NULL][last := b], q + [b], head, b)
  {
    hide Distinct;
    DistinctSnoc(q, b);
    if q == [] {
      assert q + [b] == [b];
    } else {
      LastOnce(q);
      var forw' := forw[b := NULL][last := b];
      forall i | 0 <= i < |q| + 1 ensures forw'[(q + [b])[i]] == Next(q + [b], i) {
        if i < |q| {
          assert forw[q[i]] == Next(q, i);
        }
      }
    }
  }

  lemma LastOnce(q: seq<int>)
    requires Distinct(q) && q != []
    ensures forall i :: 0 <= i < |q| - 1 ==> q[i] != q[|q| - 1]
  {
    forall i | 0 <= i < |q| - 1 ensures q[i] != q[|q| - 1] {
      if q[i] == q[|q| - 1] {
        DistinctAt(q, i, |q| - 1);
      }
    }
  }

  lemma ChainPop(forw: seq<int>, q: seq<int>, head: int, last: int)
    requires Chain(forw, q, head, last) && q != []
    ensures head == q[0] && 0 <= head < |forw| && Chain(forw, q[1..], forw[head], last)
  {
    hide Distinct;
    DistinctTail(q);
    assert forw[q[0]] == Next(q, 0);
    var t := q[1..];
    forall i | 0 <= i < |t| ensures forw[t[i]] == Next(t, i) {
      assert t[i] == q[i + 1] && forw[q[i + 1]] == Next(q, i + 1);
    }
  }
}
