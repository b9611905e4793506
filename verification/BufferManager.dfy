/**
 The cache as the kernel keeps it: control blocks on doubly linked rings, the free list's links
 doubling as the disk queue's. A pointer to a control block is its number; the free list's own block
 and the device table, which is laid out like one, follow the buffers. Each method is one critical
 section and does to the abstract cache what the function of that name does.
 */
module BufferManagers {
  import opened Sequences
  import opened Words
  import opened Rings
  import C = Cache

  const NBUF := C.NBUF
  const FREE := NBUF
  const TAB := NBUF + 1

  class BufferManager {
    const m_Buf: array<C.Buf>
    const b_forw: array<int>
    const b_back: array<int>
    const av_forw: array<int>
    const av_back: array<int>
    var wanted: bool
    var d_active: int
    var d_errcnt: int
    var d_actf: int
    var d_actl: int

    ghost var ring: seq<int>
    ghost var nodev: seq<int>
    ghost var free: seq<int>
    ghost var queue: seq<int>

    ghost predicate Layout() {
      && m_Buf.Length == NBUF
      && b_forw.Length == b_back.Length == av_forw.Length == av_back.Length == NBUF + 2
      && b_forw != b_back && b_forw != av_forw && b_forw != av_back
      && b_back != av_forw && b_back != av_back && av_forw != av_back
    }

    ghost predicate Valid()
      reads this, m_Buf, b_forw, b_back, av_forw, av_back
    {
      && Layout()
      && DeviceRings(b_forw[..], b_back[..], ring, nodev)
      && AvLists(av_forw[..], av_back[..], free, queue, d_actf, d_actl)
    }

    ghost function Abs(): C.Cache
      reads this, m_Buf
    {
      C.Cache(m_Buf[..], ring, nodev, free, wanted, queue, d_active, d_errcnt)
    }

    /** Links the buffers into empty rings one after another, and releases each. */
    constructor Initialize()
      ensures Valid() && fresh(m_Buf) && fresh(b_forw) && fresh(b_back) && fresh(av_forw) && fresh(av_back)
      ensures Abs() == C.Cache(Abs().bufs, [], C.Downward(NBUF), C.Upward(NBUF), false, [], 0, 0)
      ensures forall b :: 0 <= b < NBUF ==> m_Buf[b] == C.Unused().(data := m_Buf[b].data)
    {
      m_Buf := new C.Buf[NBUF](_ => C.Unused());
      b_forw := new int[NBUF + 2](i => i);
      b_back := new int[NBUF + 2](i => i);
      av_forw := new int[NBUF + 2](i => i);
      av_back := new int[NBUF + 2](i => i);
      wanted, d_active, d_errcnt, d_actf, d_actl := false, 0, 0, NULL, NULL;
      ring, nodev, free, queue := [], [], [], [];
      new;
      EmptyLists(b_forw[..], b_back[..], av_forw[..], av_back[..]);
      for i := 0 to NBUF
        invariant Valid() && fresh(m_Buf) && fresh(b_forw) && fresh(b_back) && fresh(av_forw) && fresh(av_back)
        invariant ring == [] && queue == [] && nodev == C.Downward(i) && free == C.Upward(i)
        invariant !wanted && d_active == 0 && d_errcnt == 0
        invariant forall b :: 0 <= b < NBUF ==> m_Buf[b] == C.Unused()
      {
        Add(i);
      }
    }

    method Add(b: int)
      requires Valid() && 0 <= b < NBUF && b !in ring && b !in nodev && b !in free && b !in queue
      modifies this`free, this`nodev, m_Buf, b_forw, b_back, av_forw, av_back
      ensures Valid() && nodev == [b] + old(nodev) && free == old(free) + [b]
      ensures m_Buf[..] == old(m_Buf[..])[b := old(m_Buf[b]).(busy := false, wanted := false, async := false)]
    {
      hide AvLists, DeviceRings;
      PutFirst(b_forw[..], b_back[..], ring, nodev, b, FREE);
      b_back[b] := FREE;
      b_forw[b] := b_forw[FREE];
      b_back[b_forw[FREE]] := b;
      b_forw[FREE] := b;
      nodev := [b] + nodev;
      m_Buf[b] := m_Buf[b].(busy := true);
      Link(b);
    }

    /** Takes a buffer off the free list. */
    method NotAvail(b: int)
      requires Valid() && b in free
      modifies this`free, m_Buf, av_forw, av_back
      ensures Valid() && Abs() == old(Abs()).NotAvail(b)
    {
      hide AvLists, DeviceRings, Without;
      TakeOff(av_forw[..], av_back[..], free, queue, d_actf, d_actl, b);
      av_forw[av_back[b]] := av_forw[b];
      av_back[av_forw[b]] := av_back[b];
      m_Buf[b] := m_Buf[b].(busy := true);
      free := Without(free, b);
    }

    /** The end of `GetBlk`: a buffer changes its ring and its block. */
    method Relink(b: int, dev: int, blkno: int)
      requires Valid() && (b in ring || b in nodev)
      modifies this`ring, this`nodev, m_Buf, b_forw, b_back
      ensures Valid() && Abs() == old(Abs()).Relink(b, dev, blkno)
    {
      hide AvLists, DeviceRings, Without;
      var dp := if dev < 0 then FREE else TAB;
      TakeOut(b_forw[..], b_back[..], ring, nodev, b);
      m_Buf[b] := C.Buf(true, false, false, false, false, false, dev, blkno, m_Buf[b].data);
      b_forw[b_back[b]] := b_forw[b];
      b_back[b_forw[b]] := b_back[b];
      ring, nodev := Without(ring, b), Without(nodev, b);
      PutFirst(b_forw[..], b_back[..], ring, nodev, b, dp);
      b_forw[b] := b_forw[dp];
      b_back[b] := dp;
      b_back[b_forw[dp]] := b;
      b_forw[dp] := b;
      if dev < 0 {
        nodev := [b] + nodev;
      } else {
        ring := [b] + ring;
      }
    }

    /** The critical section of `Brelse`. */
    method Link(b: int)
      requires Valid() && 0 <= b < NBUF && b !in free && b !in queue
      modifies this`free, m_Buf, av_forw, av_back
      ensures Valid() && Abs() == old(Abs()).Link(b)
    {
      hide AvLists, DeviceRings;
      PutLast(av_forw[..], av_back[..], free, queue, d_actf, d_actl, b);
      m_Buf[b] := m_Buf[b].(wanted := false, busy := false, async := false);
      av_forw[av_back[FREE]] := b;
      av_back[b] := av_back[FREE];
      av_forw[b] := FREE;
      av_back[FREE] := b;
      free := free + [b];
    }

    /** Sends a request to the disk. */
    method Strategy(b: int)
      requires Valid() && 0 <= b < NBUF && b !in free && b !in queue
      requires d_active == if queue == [] then 0 else 1
      modifies this`queue, this`d_actf, this`d_actl, this`d_active, av_forw
      ensures Valid() && Abs() == old(Abs()).Enqueue(b)
    {
      hide AvLists, DeviceRings;
      EndOfQueue(av_forw[..], av_back[..], free, queue, d_actf, d_actl, b);
      av_forw[b] := NULL;
      if d_actf == NULL {
        d_actf := b;
      } else {
        av_forw[d_actl] := b;
      }
      d_actl := b;
      queue := queue + [b];
      if d_active == 0 {
        Start();
      }
    }

    /** Starts the first request, if any. */
    method Start()
      requires d_actf == NULL <==> queue == []
      modifies this`d_active
      ensures d_active == old(d_active) + if queue == [] then 0 else 1
    {
      if d_actf != NULL {
        d_active := d_active + 1;
      }
    }

    method Brelse(b: int)
      requires Valid() && 0 <= b < NBUF && b !in free && b !in queue
      modifies this`free, this`wanted, m_Buf, av_forw, av_back
      ensures Valid() && Abs() == old(Abs()).(wanted := false).Link(b)
    {
      if wanted {
        wanted := false;
      }
      Link(b);
    }

    method IODone(b: int)
      requires Valid() && 0 <= b < NBUF && b !in free && b !in queue
      modifies this`free, this`wanted, m_Buf, av_forw, av_back
      ensures Valid() && Abs() == old(Abs()).Finished(b)
    {
      m_Buf[b] := m_Buf[b].(done := true);
      if m_Buf[b].async {
        Brelse(b);
      } else {
        m_Buf[b] := m_Buf[b].(wanted := false);
      }
    }

    /**
     The disk's interrupt. An attempt that failed is repeated up to ten times; giving up with an
     error is outside the model.
     */
    method ATAHandler(error: bool)
      requires Valid() && d_active == (if queue == [] then 0 else 1)
      requires forall b :: b in queue ==> b !in free
      requires error ==> d_errcnt < 10
      modifies this, m_Buf, av_forw, av_back
      ensures Valid()
      ensures if old(queue) == [] then Abs() == old(Abs())
              else if error then Abs() == old(Abs()).(errcnt := old(d_errcnt) + 1)
              else Abs() == old(Abs()).Dequeue().Finished(old(queue[0]))
    {
      hide AvLists, DeviceRings;
      if d_active == 0 {
        return;
      }
      var bp := d_actf;
      d_active := 0;
      HeadOfQueue(av_forw[..], av_back[..], free, queue, d_actf, d_actl);
      if error {
        d_errcnt := d_errcnt + 1;
        Start();
        return;
      }
      d_errcnt := 0;
      d_actf := av_forw[bp];
      queue := queue[1..];
      IODone(bp);
      Start();
    }

    /** The search of `GetBlk` and `InCore`, along the device's ring. */
    method InCore(dev: int, blkno: int) returns (b: int)
      requires Valid()
      ensures b == C.Find(ring, m_Buf[..], dev, blkno)
    {
      b := b_forw[TAB];
      ghost var i := 0;
      assert Linked(b_forw[..], b_back[..], TAB, ring, 0);
      while b != TAB
        invariant 0 <= i <= |ring| && b == Stop(TAB, ring, i + 1)
        invariant C.Find(ring, m_Buf[..], dev, blkno) == C.Find(ring[i..], m_Buf[..], dev, blkno)
        decreases |ring| - i
      {
        assert b == ring[i] && b in ring;
        if m_Buf[b].blkno == blkno && m_Buf[b].dev == dev {
          return;
        }
        assert Linked(b_forw[..], b_back[..], TAB, ring, i + 1);
        b := b_forw[b];
        i := i + 1;
      }
      b := -1;
    }

    /** The search of `Bflush`, along the free list. */
    method FirstDelayed(dev: int) returns (b: int)
      requires Valid()
      ensures b == C.FirstDelayed(free, m_Buf[..], dev)
    {
      b := av_forw[FREE];
      ghost var i := 0;
      assert Linked(av_forw[..], av_back[..], FREE, free, 0);
      while b != FREE
        invariant 0 <= i <= |free| && b == Stop(FREE, free, i + 1)
        invariant C.FirstDelayed(free, m_Buf[..], dev) == C.FirstDelayed(free[i..], m_Buf[..], dev)
        decreases |free| - i
      {
        assert b == free[i] && b in free;
        if m_Buf[b].delwri && (dev == C.NODEV || dev == m_Buf[b].dev) {
          return;
        }
        assert Linked(av_forw[..], av_back[..], FREE, free, i + 1);
        b := av_forw[b];
        i := i + 1;
      }
      b := -1;
    }
  }

  ghost predicate Buffers(r: seq<int>) {
    forall b :: b in r ==> 0 <= b < NBUF
  }

  /** The rings through `b_forw` and `b_back`, without a node in common. */
  ghost predicate DeviceRings(forw: seq<int>, back: seq<int>, ring: seq<int>, nodev: seq<int>) {
    && Ring(forw, back, TAB, ring) && Ring(forw, back, FREE, nodev)
    && Buffers(ring) && Buffers(nodev) && forall b :: b in ring ==> b !in nodev
  }

  /** The two lists through `av_forw`, without a node in common. */
  ghost predicate AvLists(forw: seq<int>, back: seq<int>, free: seq<int>, queue: seq<int>, first: int, last: int) {
    && Ring(forw, back, FREE, free) && Chain(forw, queue, first, last)
    && Buffers(free) && Buffers(queue) && forall b :: b in free ==> b !in queue
  }

  lemma TakeOff(forw: seq<int>, back: seq<int>, free: seq<int>, queue: seq<int>, first: int, last: int, b: int)
    requires AvLists(forw, back, free, queue, first, last) && b in free
    ensures 0 <= b < NBUF && b < |forw| == |back| && 0 <= forw[b] < |forw| && 0 <= back[b] < |forw| && back[b] != b
    ensures AvLists(forw[back[b] := forw[b]], back[forw[b] := back[b]], Without(free, b), queue, first, last)
  {
    hide Distinct, Linked, Without;
    Unlink(forw, back, FREE, free, b);
    NextInRing(forw, back, FREE, free, b);
    ChainFrame(forw, forw[back[b] := forw[b]], queue, first, last);
  }

  lemma PutLast(forw: seq<int>, back: seq<int>, free: seq<int>, queue: seq<int>, first: int, last: int, b: int)
    requires AvLists(forw, back, free, queue, first, last) && 0 <= b < NBUF && b !in free && b !in queue
    ensures |forw| == |back| && FREE < |forw| && 0 <= back[FREE] < |forw| && back[FREE] != b
    ensures AvLists(forw[back[FREE] := b][b := FREE], back[b := back[FREE]][FREE := b], free + [b], queue, first, last)
  {
    hide Distinct, Linked;
    InsertLast(forw, back, FREE, free, b);
    NextInRing(forw, back, FREE, free, FREE);
    ChainFrame(forw, forw[back[FREE] := b][b := FREE], queue, first, last);
  }

  lemma EndOfQueue(forw: seq<int>, back: seq<int>, free: seq<int>, queue: seq<int>, first: int, last: int, b: int)
    requires AvLists(forw, back, free, queue, first, last) && 0 <= b < NBUF && b !in free && b !in queue
    ensures first == NULL <==> queue == []
    ensures b < |forw| && (queue != [] ==> 0 <= last < |forw|)
    ensures if queue == [] then AvLists(forw[b := NULL], back, free, queue + [b], b, b)
            else AvLists(forw[b := NULL][last := b], back, free, queue + [b], first, b)
  {
    hide Distinct, Linked;
    ChainAppend(forw, queue, first, last, b);
    RingFrame(forw, back, forw[b := NULL], back, FREE, free);
    if queue == [] {
      assert queue + [b] == [b];
    } else {
      assert last in queue;
      RingFrame(forw, back, forw[b := NULL][last := b], back, FREE, free);
    }
  }

  lemma HeadOfQueue(forw: seq<int>, back: seq<int>, free: seq<int>, queue: seq<int>, first: int, last: int)
    requires AvLists(forw, back, free, queue, first, last)
    ensures first == NULL <==> queue == []
    ensures queue != [] ==>
      && first == queue[0] && 0 <= first < NBUF && first < |forw| && first !in free && first !in queue[1..]
      && AvLists(forw, back, free, queue[1..], forw[first], last)
      && (forw[first] == NULL <==> queue[1..] == [])
  {
    hide Distinct, Linked, Ring;
    if queue != [] {
      assert queue[0] in queue;
      ChainPop(forw, queue, first, last);
      DistinctTail(queue);
      HeadAndTail(queue);
    }
  }

  lemma TakeOut(forw: seq<int>, back: seq<int>, ring: seq<int>, nodev: seq<int>, b: int)
    requires DeviceRings(forw, back, ring, nodev) && (b in ring || b in nodev)
    ensures 0 <= b < NBUF && b < |forw| == |back| && 0 <= forw[b] < |forw| && 0 <= back[b] < |forw| && back[b] != b
    ensures DeviceRings(forw[back[b] := forw[b]], back[forw[b] := back[b]], Without(ring, b), Without(nodev, b))
  {
    hide Distinct, Linked, Without;
    if b in ring {
      Unlink(forw, back, TAB, ring, b);
      NextInRing(forw, back, TAB, ring, b);
      RingFrame(forw, back, forw[back[b] := forw[b]], back[forw[b] := back[b]], FREE, nodev);
    } else {
      Unlink(forw, back, FREE, nodev, b);
      NextInRing(forw, back, FREE, nodev, b);
      RingFrame(forw, back, forw[back[b] := forw[b]], back[forw[b] := back[b]], TAB, ring);
    }
  }

  lemma PutFirst(forw: seq<int>, back: seq<int>, ring: seq<int>, nodev: seq<int>, b: int, h: int)
    requires DeviceRings(forw, back, ring, nodev) && 0 <= b < NBUF && b !in ring && b !in nodev && (h == FREE || h == TAB)
    ensures |forw| == |back| && h < |forw| && 0 <= forw[h] < |forw| && forw[h] != b
    ensures var forw', back' := forw[b := forw[h]][h := b], back[b := h][forw[h] := b];
            if h == TAB then DeviceRings(forw', back', [b] + ring, nodev) else DeviceRings(forw', back', ring, [b] + nodev)
  {
    hide Distinct, Linked;
    var r, o, oh := if h == TAB then ring else nodev, if h == TAB then nodev else ring, if h == TAB then FREE else TAB;
    InsertFirst(forw, back, h, r, b);
    NextInRing(forw, back, h, r, h);
    RingFrame(forw, back, forw[b := forw[h]][h := b], back[b := h][forw[h] := b], oh, o);
  }

  lemma EmptyLists(forw: seq<int>, back: seq<int>, avForw: seq<int>, avBack: seq<int>)
    requires |forw| == |back| == |avForw| == |avBack| == NBUF + 2
    requires forall i :: 0 <= i < NBUF + 2 ==> forw[i] == i && back[i] == i && avForw[i] == i && avBack[i] == i
    ensures DeviceRings(forw, back, [], []) && AvLists(avForw, avBack, [], [], NULL, NULL)
  {
  }
}
