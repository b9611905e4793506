/**
 The buffer cache and the disk's request queue as one value, and the moves that the kernel makes on
 it, each a stretch of code that runs with interrupts off. Buffers are known by their number.
 */
module Cache {
  import opened Sequences
  import opened Words

  const NBUF := 15
  const NODEV := -1
  const ROOTDEV := 0

  datatype Buf = Buf(busy: bool, wanted: bool, done: bool, read: bool, async: bool, delwri: bool,
                     dev: int, blkno: int, data: Block)
  {
    predicate Holds(d: int, n: int) {
      dev == d && blkno == n
    }
  }

  function Unused(): Buf {
    Buf(false, false, false, false, false, false, NODEV, 0, ZeroBlock())
  }

  /**
   `ring` and `nodev` are the device's and the free list's `b_forw` rings, `free` the free list's
   `av_forw` ring, `queue` the requests from `d_actf` on; `wanted` is the free list's own flag.
   */
  datatype Cache = Cache(bufs: seq<Buf>, ring: seq<int>, nodev: seq<int>, free: seq<int>, wanted: bool,
                         queue: seq<int>, active: int, errcnt: int)
  {
    predicate Has(b: int) {
      0 <= b < |bufs|
    }

    function B(b: int): Buf {
      if Has(b) then bufs[b] else Unused()
    }

    function Put(b: int, x: Buf): Cache {
      if Has(b) then this.(bufs := bufs[b := x]) else this
    }

    /** The search through the device's ring, by `GetBlk` and by `InCore`; -1 if the block is not there. */
    function InCore(blkno: int): int {
      Find(ring, bufs, ROOTDEV, blkno)
    }

    function NotAvail(b: int): Cache {
      Put(b, B(b).(busy := true)).(free := Without(free, b))
    }

    /** Gives buffer `b` to another block; only `B_BUSY` stays set. */
    function Relink(b: int, dev: int, blkno: int): Cache {
      var c := Put(b, Buf(true, false, false, false, false, false, dev, blkno, B(b).data));
      var ring', nodev' := Without(ring, b), Without(nodev, b);
      if dev < 0 then c.(ring := ring', nodev := [b] + nodev') else c.(ring := [b] + ring', nodev := nodev')
    }

    /** The second half of `Brelse`. */
    function Link(b: int): Cache {
      Put(b, B(b).(wanted := false, busy := false, async := false)).(free := free + [b])
    }

    /** `Strategy`, which starts the device if it is not busy. */
    function Enqueue(b: int): Cache {
      this.(queue := queue + [b], active := if active == 0 then 1 else active)
    }

    /** `IODone` on the cache: an asynchronous request's buffer goes back to the free list. */
    function Finished(b: int): Cache {
      var c := Put(b, B(b).(done := true));
      if B(b).async then c.(wanted := false).Link(b) else c.Put(b, c.B(b).(wanted := false))
    }

    /** The handler's work on the queue; the next request is started if there is one. */
    function Dequeue(): Cache {
      if queue == [] then this
      else this.(queue := queue[1..], active := if |queue| > 1 then 1 else 0, errcnt := 0)
    }
  }

  function Find(ring: seq<int>, bufs: seq<Buf>, dev: int, blkno: int): (b: int)
    ensures b >= 0 ==> b in ring && b < |bufs| && bufs[b].Holds(dev, blkno)
    ensures b < 0 ==> forall x :: x in ring && 0 <= x < |bufs| ==> !bufs[x].Holds(dev, blkno)
  {
    if ring == [] then -1
    else if 0 <= ring[0] < |bufs| && bufs[ring[0]].Holds(dev, blkno) then ring[0]
    else Find(ring[1..], bufs, dev, blkno)
  }

  /** The buffers in and against the order of their numbers. */
  function Upward(n: nat): (s: seq<int>)
    ensures |s| == n && forall i :: 0 <= i < n ==> s[i] == i
  {
    if n == 0 then [] else Upward(n - 1) + [n - 1]
  }

  function Downward(n: nat): (s: seq<int>)
    ensures |s| == n && forall i :: 0 <= i < n ==> s[i] == n - 1 - i
  {
    if n == 0 then [] else [n - 1] + Downward(n - 1)
  }

  /** The first delayed write on the free list, for one device or for all. */
  function FirstDelayed(free: seq<int>, bufs: seq<Buf>, dev: int): (b: int)
    ensures b >= 0 ==> b in free && b < |bufs| && bufs[b].delwri && (dev == NODEV || dev == bufs[b].dev)
    ensures b < 0 ==> forall x :: x in free && 0 <= x < |bufs| ==> !(bufs[x].delwri && (dev == NODEV || dev == bufs[x].dev))
  {
    if free == [] then -1
    else if 0 <= free[0] < |bufs| && bufs[free[0]].delwri && (dev == NODEV || dev == bufs[free[0]].dev) then free[0]
    else FirstDelayed(free[1..], bufs, dev)
  }

  /** `ring` lists, once each, the buffers that are, or are not, assigned to the device. */
  ghost predicate RingOf(ring: seq<int>, bufs: seq<Buf>, onDevice: bool) {
    Distinct(ring) && forall b :: b in ring <==> 0 <= b < |bufs| && (bufs[b].dev >= 0) == onDevice
  }

  /** Every buffer lies on exactly one of the two rings. */
  ghost predicate RingsOk(ring: seq<int>, nodev: seq<int>, bufs: seq<Buf>) {
    RingOf(ring, bufs, true) && RingOf(nodev, bufs, false)
  }

  lemma RingLoses(ring: seq<int>, bufs: seq<Buf>, b: int, x: Buf, onDevice: bool)
    requires RingOf(ring, bufs, onDevice) && 0 <= b < |bufs| && (x.dev >= 0) != onDevice
    ensures RingOf(Without(ring, b), bufs[b := x], onDevice)
  {
    hide Distinct, Without;
    DistinctWithout(ring, b);
  }

  lemma RingGains(ring: seq<int>, bufs: seq<Buf>, b: int, x: Buf, onDevice: bool)
    requires RingOf(ring, bufs, onDevice) && 0 <= b < |bufs| && (x.dev >= 0) == onDevice
    ensures RingOf([b] + Without(ring, b), bufs[b := x], onDevice)
  {
    hide Distinct, Without;
    DistinctWithout(ring, b);
    DistinctCons(b, Without(ring, b));
  }

  lemma RelinkKeepsRings(c: Cache, b: int, dev: int, blkno: int)
    requires RingsOk(c.ring, c.nodev, c.bufs) && c.Has(b)
    ensures var r := c.Relink(b, dev, blkno); RingsOk(r.ring, r.nodev, r.bufs)
  {
    hide RingOf, Without;
    var x := c.Relink(b, dev, blkno).bufs[b];
    if dev >= 0 {
      RingGains(c.ring, c.bufs, b, x, true);
      RingLoses(c.nodev, c.bufs, b, x, false);
    } else {
      RingLoses(c.ring, c.bufs, b, x, true);
      RingGains(c.nodev, c.bufs, b, x, false);
    }
  }

  /** Only the device numbers matter to the rings. */
  lemma SetKeepsRings(ring: seq<int>, nodev: seq<int>, bufs: seq<Buf>, b: int, x: Buf)
    requires RingsOk(ring, nodev, bufs) && 0 <= b < |bufs| && x.dev == bufs[b].dev
    ensures RingsOk(ring, nodev, bufs[b := x])
  {
    hide Distinct;
  }
}
