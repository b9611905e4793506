/** What holds of the cache in every reachable state, and why each step keeps it. */
module CacheInvariant {
  import opened Sequences
  import opened Words
  import opened Cache
  import opened CacheRuns

  // One buffer: its flags fit its use, and its data fits the disk.

  ghost predicate BufOk(x: Buf, u: Use) {
    && (x.delwri ==> x.done && x.dev >= 0)
    && match u
       case Idle => !x.busy && !x.wanted && !x.async
       case Held(_, _) => x.busy && !x.async
       case Ordered(who, read) => x.busy && !x.done && x.read == read && x.async == (who == NOBODY) && x.dev >= 0
       case Queued(who, read) => x.busy && !x.done && x.read == read && x.async == (who == NOBODY) && x.dev >= 0
  }

  predicate Writing(u: Use) {
    (u.Ordered? || u.Queued?) && !u.read
  }

  ghost predicate DataOk(x: Buf, u: Use, disk: seq<Block>, flat: seq<Block>) {
    x.dev >= 0 ==>
      && x.dev == ROOTDEV && 0 <= x.blkno < |flat| == |disk|
      && (x.done && !(u.Held? && u.dirty) ==> x.data == flat[x.blkno])
      && (Writing(u) ==> x.data == flat[x.blkno])
      && (!x.delwri && !Writing(u) ==> disk[x.blkno] == flat[x.blkno])
  }

  ghost predicate Uncached(bufs: seq<Buf>, n: int) {
    forall b :: 0 <= b < |bufs| ==> !bufs[b].Holds(ROOTDEV, n)
  }

  /** Every cached block agrees with the flat disk, and so does every uncached block on the real disk. */
  ghost predicate Coherent(bufs: seq<Buf>, use: seq<Use>, disk: seq<Block>, flat: seq<Block>) {
    && |bufs| == |use| && |disk| == |flat|
    && (forall b :: 0 <= b < |bufs| ==> BufOk(bufs[b], use[b]) && DataOk(bufs[b], use[b], disk, flat))
    && (forall n :: 0 <= n < |disk| && Uncached(bufs, n) ==> disk[n] == flat[n])
  }

  ghost predicate UniqueKeys(bufs: seq<Buf>) {
    forall a, b :: 0 <= a < |bufs| && 0 <= b < |bufs| && bufs[a].dev >= 0 && bufs[b].Holds(bufs[a].dev, bufs[a].blkno) ==> a == b
  }

  /** The free list holds the idle buffers, the queue the requested ones, and the device is busy with the first. */
  ghost predicate ListsOk(free: seq<int>, queue: seq<int>, active: int, use: seq<Use>) {
    && Distinct(free) && Distinct(queue)
    && (forall b :: b in free <==> 0 <= b < |use| && use[b].Idle?)
    && (forall b :: b in queue <==> 0 <= b < |use| && use[b].Queued?)
    && active == if queue == [] then 0 else 1
  }

  // Processes.

  /** Held by `p`, unmodified, or requested on its behalf. */
  predicate Mine(u: Use, p: int) {
    u == Held(p, false) || ((u.Ordered? || u.Queued?) && u.who == p)
  }

  predicate ThenOk(t: Then, n: int) {
    match t
    case ToBreada(ra) => 0 <= ra < n
    case ToAhead(first, main) => 0 <= first && 0 <= main < n
    case _ => true
  }

  predicate RequestOk(dev: int, blkno: int, t: Then, n: int) {
    ThenOk(t, n) && if dev < 0 then t.ToClient? else dev == ROOTDEV && 0 <= blkno < n
  }

  /** Code at which a process may be without the processor, or with which a call may go on. */
  predicate Resumable(code: Code, n: int) {
    match code
    case Client => true
    case GetBlk(dev, blkno, t) => RequestOk(dev, blkno, t, n)
    case Wait(b, blkno, reading) => 0 <= b && (reading ==> 0 <= blkno < n)
    case Ahead(first, main, ra) => 0 <= first && 0 <= main < n && 0 <= ra < n
    case Finish(first, main) => 0 <= main < n
    case Flush(_) => true
    case _ => false
  }

  function ThenKeeps(t: Then): int {
    if t.ToAhead? then t.first else -1
  }

  function ThenBlock(t: Then): int {
    if t.ToAhead? then t.main else -1
  }

  /** The buffer that `code` will come back to, or -1. */
  function Kept(code: Code): int {
    match code
    case GetBlk(_, _, t) => ThenKeeps(t)
    case Take(_, _, t) => ThenKeeps(t)
    case Pick(_, _, t) => ThenKeeps(t)
    case Obtained(_, _, _, t) => ThenKeeps(t)
    case Wait(b, _, _) => b
    case Ahead(first, _, _) => first
    case Finish(first, _) => first
    case _ => -1
  }

  /** The block it expects to find in it, or -1. */
  function KeptBlock(code: Code): int {
    match code
    case GetBlk(_, _, t) => ThenBlock(t)
    case Take(_, _, t) => ThenBlock(t)
    case Pick(_, _, t) => ThenBlock(t)
    case Obtained(_, _, _, t) => ThenBlock(t)
    case Wait(_, blkno, reading) => if reading then blkno else -1
    case Ahead(_, main, _) => main
    case Finish(_, main) => main
    case _ => -1
  }

  ghost predicate KeptMine(s: Sys, p: int, code: Code) {
    var k := Kept(code);
    k >= 0 ==>
      && k < |s.use| && Mine(s.use[k], p)
      && (KeptBlock(code) >= 0 ==> s.c.B(k).Holds(ROOTDEV, KeptBlock(code)))
  }

  /** The buffer's contents are there or on their way. */
  predicate Arriving(s: Sys, k: int) {
    k >= 0 ==> s.c.B(k).done || s.U(k).Queued?
  }

  ghost predicate KeptOk(s: Sys, p: int, code: Code) {
    KeptMine(s, p, code) && Arriving(s, Kept(code))
  }

  /** A process that does not have the processor; if it sleeps, what it waits for is still to come. */
  ghost predicate Parked(s: Sys, p: int)
    requires s.IsProc(p)
  {
    var code, chan := s.procs[p].code, s.procs[p].chan;
    && Resumable(code, |s.flat|) && KeptOk(s, p, code)
    && match code
       case Client => chan == Awake
       case GetBlk(_, _, _) =>
         (match chan
          case Awake => true
          case OnBuf(b) => s.c.B(b).busy && s.c.B(b).wanted
          case OnFree => s.c.free == [] && s.c.wanted)
       case Wait(b, _, reading) =>
         (match chan
          case Awake => s.c.B(b).done && (reading || !s.c.B(b).delwri)
          case OnBuf(x) => x == b && s.U(b).Queued?
          case OnFree => false)
       case _ => false
  }

  ghost predicate NoSleepers(procs: seq<Proc>, chan: Chan) {
    forall q :: 0 <= q < |procs| ==> procs[q].chan != chan
  }

  /** The process inside a call. */
  ghost predicate Running(s: Sys, p: int)
    requires s.IsProc(p)
  {
    var code, n := s.procs[p].code, |s.flat|;
    && s.procs[p].chan == Awake && KeptOk(s, p, code)
    && match code
       case Take(b, blkno, t) => s.U(b).Idle? && s.c.Has(b) && s.c.B(b).Holds(ROOTDEV, blkno) && RequestOk(ROOTDEV, blkno, t, n)
       case Pick(dev, blkno, t) => s.c.free != [] && RequestOk(dev, blkno, t, n) && (dev >= 0 ==> Uncached(s.c.bufs, blkno))
       case Obtained(b, dev, blkno, t) =>
         s.U(b) == Held(p, false) && s.c.B(b).Holds(dev, blkno) && RequestOk(dev, blkno, t, n) && ThenKeeps(t) != b
       case Submit(b, next) =>
         && s.U(b).Ordered? && (s.U(b).who == p || s.U(b).who == NOBODY)
         && Resumable(next, n) && KeptMine(s, p, next)
         && (Kept(next) != b ==> Arriving(s, Kept(next)) && !next.Wait?)
       case Wake(b, next) =>
         s.U(b) == Held(p, false) && Resumable(next, n) && Kept(next) != b && KeptOk(s, p, next) && !next.Wait?
       case Link(b, next) =>
         && s.U(b) == Held(p, false) && Resumable(next, n) && Kept(next) != b && KeptOk(s, p, next) && !next.Wait?
         && !s.c.wanted && NoSleepers(s.procs, OnBuf(b)) && NoSleepers(s.procs, OnFree)
       case Got(b, dev, blkno, reading) =>
         s.U(b) == Held(p, false) && s.c.B(b).Holds(dev, blkno) && (reading ==> dev == ROOTDEV && s.c.B(b).done)
       case Wait(b, _, reading) => Resumable(code, n) && (reading || !s.c.B(b).delwri)
       case _ => code != Client && Resumable(code, n)
  }

  ghost predicate ProcsOk(s: Sys) {
    && (forall q :: s.IsProc(q) && q != s.cur ==> Parked(s, q))
    && (s.cur != NOBODY ==> s.IsProc(s.cur) && Running(s, s.cur))
  }

  /** Everything but the processes. */
  ghost predicate Sound(s: Sys) {
    && |s.c.bufs| == NBUF
    && Coherent(s.c.bufs, s.use, s.disk, s.flat)
    && UniqueKeys(s.c.bufs)
    && RingsOk(s.c.ring, s.c.nodev, s.c.bufs)
    && ListsOk(s.c.free, s.c.queue, s.c.active, s.use)
  }

  ghost predicate Inv(s: Sys) {
    Sound(s) && ProcsOk(s)
  }

  // A change of one buffer.

  predicate SameKey(x: Buf, y: Buf) {
    x.dev == y.dev && (x.dev >= 0 ==> x.blkno == y.blkno)
  }

  lemma SetCoherent(bufs: seq<Buf>, use: seq<Use>, disk: seq<Block>, flat: seq<Block>, b: int, x: Buf, u: Use)
    requires Coherent(bufs, use, disk, flat) && UniqueKeys(bufs) && 0 <= b < |bufs| && SameKey(bufs[b], x)
    requires BufOk(x, u) && DataOk(x, u, disk, flat)
    ensures Coherent(bufs[b := x], use[b := u], disk, flat) && UniqueKeys(bufs[b := x])
  {
    hide BufOk, DataOk;
    forall n | 0 <= n < |disk| && Uncached(bufs[b := x], n) ensures disk[n] == flat[n] {
      forall a | 0 <= a < |bufs| ensures !bufs[a].Holds(ROOTDEV, n) {
        assert !bufs[b := x][a].Holds(ROOTDEV, n);
      }
    }
  }

  /** A clean idle buffer is given to a block that is not cached. */
  lemma RelinkCoherent(bufs: seq<Buf>, use: seq<Use>, disk: seq<Block>, flat: seq<Block>, b: int, x: Buf, p: int)
    requires Coherent(bufs, use, disk, flat) && UniqueKeys(bufs) && 0 <= b < |bufs|
    requires use[b].Idle? && !bufs[b].delwri
    requires x == Buf(true, false, false, false, false, false, x.dev, x.blkno, x.data)
    requires x.dev >= 0 ==> x.dev == ROOTDEV && 0 <= x.blkno < |disk| && Uncached(bufs, x.blkno)
    ensures Coherent(bufs[b := x], use[b := Held(p, false)], disk, flat) && UniqueKeys(bufs[b := x])
  {
    var bufs' := bufs[b := x];
    forall n | 0 <= n < |disk| && Uncached(bufs', n) ensures disk[n] == flat[n] {
      if bufs[b].Holds(ROOTDEV, n) {
        assert DataOk(bufs[b], use[b], disk, flat);
      } else {
        forall a | 0 <= a < |bufs| ensures !bufs[a].Holds(ROOTDEV, n) {
          assert !bufs'[a].Holds(ROOTDEV, n);
        }
      }
    }
    assert BufOk(x, Held(p, false)) && DataOk(x, Held(p, false), disk, flat);
  }
}
