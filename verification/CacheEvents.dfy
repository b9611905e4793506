/** Waking, calling and the disk's interrupts keep the invariant as well, and so does every run. */
module CacheEvents {
  import opened Sequences
  import opened Words
  import opened Cache
  import opened CacheRuns
  import opened CacheInvariant
  import opened CacheSteps

  /** The first half of `Brelse` wakes everyone who waits for the buffer or for any buffer. */
  lemma WokenOthers(s: Sys, p: int, b: int)
    requires Others(s, p) && s.IsProc(p) && s.procs[p].chan == Awake && NotOthers(s.U(b), p) && !s.U(b).Queued?
    ensures var t := WakeWaiters(s, b);
            && Others(t, p) && t.procs[p] == s.procs[p] && |t.procs| == |s.procs|
            && NoSleepers(t.procs, OnBuf(b)) && NoSleepers(t.procs, OnFree)
  {
    hide Resumable, KeptBlock;
    var t := WakeWaiters(s, b);
    forall q | t.IsProc(q) && q != p
      ensures Parked(t, q) && t.procs[q].chan != OnBuf(b) && t.procs[q].chan != OnFree
    {
      assert Parked(s, q);
    }
  }

  lemma WakeKeeps(s: Sys, p: int, b: int, next: Code)
    requires Inv(s) && Enabled(s, EvStep(p)) && s.procs[p].code == Wake(b, next)
    ensures Inv(WakeWaiters(s, b).Go(p, Link(b, next)))
  {
    hide RingOf, ListsOk, Coherent, UniqueKeys, Resumable;
    Enters(s, p);
    InCoreFacts(s, 0);
    WokenOthers(s, p, b);
    var w := WakeWaiters(s, b);
    var t := w.Go(p, Link(b, next));
    OthersParked(w, t, p, -1);
    Assembled(t, p);
  }

  lemma StepKeeps(s: Sys, p: int)
    requires Inv(s) && Enabled(s, EvStep(p))
    ensures Inv(Step(s, p))
  {
    hide Inv, Enabled, StepGetBlk, StepTake, StepPick, StepObtained, StepSubmit, StepWait, StepLink, StepAhead,
         StepFinish, StepFlush, WakeWaiters, Sys.Go;
    assert s.IsProc(p) && s.procs[p].code != Client by { StepOf(s, p); }
    match s.procs[p].code
    case GetBlk(dev, blkno, t) => GetBlkKeeps(s, p, dev, blkno, t);
    case Take(b, blkno, t) => TakeKeeps(s, p, b, blkno, t);
    case Pick(dev, blkno, t) => PickKeeps(s, p, dev, blkno, t);
    case Obtained(b, dev, blkno, t) => ObtainedKeeps(s, p, b, dev, blkno, t);
    case Submit(b, next) => SubmitKeeps(s, p, b, next);
    case Wait(b, blkno, reading) => WaitKeeps(s, p, b, blkno, reading);
    case Wake(b, next) => WakeKeeps(s, p, b, next);
    case Link(b, next) => LinkKeeps(s, p, b, next);
    case Ahead(_, _, _) => MovesOnKeeps(s, p);
    case Finish(_, _) => MovesOnKeeps(s, p);
    case Flush(dev) => FlushKeeps(s, p, dev);
    case Got(_, _, _, _) => MovesOnKeeps(s, p);
  }

  lemma StepOf(s: Sys, p: int)
    requires Enabled(s, EvStep(p))
    ensures s.IsProc(p) && s.procs[p].code != Client
  {
  }

  // Calls.

  lemma Caller(s: Sys, p: int, op: Op)
    requires Inv(s) && Enabled(s, EvCall(p, op))
    ensures Sound(s) && Others(s, p) && s.procs[p] == Proc(Client, Awake) && s.cur == NOBODY
    ensures |s.use| == |s.c.bufs| == NBUF && |s.disk| == |s.flat|
  {
  }

  /** A buffer in a client's hands changes. */
  lemma HandsKeeps(s: Sys, p: int, b: int, x: Buf, dirty: bool, code: Code)
    requires Sound(s) && Others(s, p) && s.IsProc(p) && s.procs[p] == Proc(Client, Awake) && s.cur == NOBODY
    requires s.U(b).Held? && s.U(b).p == p && b < |s.c.bufs|
    requires x == s.c.bufs[b].(data := x.data) && (x.done && !dirty ==> x == s.c.bufs[b] && !s.U(b).dirty)
    requires code == if dirty then Client else Wake(b, Client)
    ensures Inv(s.Set(b, x, Held(p, dirty)).Go(p, code))
  {
    hide RingOf, ListsOk, UniqueKeys;
    var u := Held(p, dirty);
    var t := s.Set(b, x, u).Go(p, code);
    SetCoherent(s.c.bufs, s.use, s.disk, s.flat, b, x, u);
    SetKeepsRings(s.c.ring, s.c.nodev, s.c.bufs, b, x);
    ListsMark(s.c.free, s.c.queue, s.c.active, s.use, b, u);
    OthersParked(s, t, p, b);
    Assembled(t, p);
  }

  /** A block's meaning changes to what is in its buffer, which will be written sooner or later. */
  lemma WrittenCoherent(bufs: seq<Buf>, use: seq<Use>, disk: seq<Block>, flat: seq<Block>, b: int, x: Buf, u: Use)
    requires Coherent(bufs, use, disk, flat) && UniqueKeys(bufs) && 0 <= b < |bufs| && bufs[b].dev >= 0
    requires x.Holds(bufs[b].dev, bufs[b].blkno) && BufOk(x, u) && (x.delwri || Writing(u))
    ensures bufs[b].dev == ROOTDEV && 0 <= bufs[b].blkno < |flat|
    ensures Coherent(bufs[b := x], use[b := u], disk, flat[bufs[b].blkno := x.data]) && UniqueKeys(bufs[b := x])
  {
    var bufs', flat' := bufs[b := x], flat[bufs[b].blkno := x.data];
    assert DataOk(bufs[b], use[b], disk, flat);
    forall a | 0 <= a < |bufs| ensures BufOk(bufs'[a], use[b := u][a]) && DataOk(bufs'[a], use[b := u][a], disk, flat') {
      assert BufOk(bufs[a], use[a]) && DataOk(bufs[a], use[a], disk, flat);
    }
    forall n | 0 <= n < |disk| && Uncached(bufs', n) ensures disk[n] == flat'[n] {
      assert !bufs'[b].Holds(ROOTDEV, n);
      forall a | 0 <= a < |bufs| ensures !bufs[a].Holds(ROOTDEV, n) {
        assert !bufs'[a].Holds(ROOTDEV, n);
      }
    }
  }

  lemma WrittenKeeps(s: Sys, p: int, b: int, x: Buf, u: Use, code: Code)
    requires Sound(s) && Others(s, p) && s.IsProc(p) && s.procs[p] == Proc(Client, Awake) && s.cur == NOBODY
    requires s.U(b).Held? && s.U(b).p == p && b < |s.c.bufs| && s.c.bufs[b].dev >= 0
    requires
      || (u == Ordered(p, false) && x == ToWrite(s.c.bufs[b], false) && code == Submit(b, Wait(b, -1, false)))
      || (u == Ordered(NOBODY, false) && x == ToWrite(s.c.bufs[b], true) && code == Submit(b, Client))
      || (u == Held(p, false) && x == s.c.bufs[b].(delwri := true, done := true) && code == Wake(b, Client))
    ensures Inv(Written(s, b).Set(b, x, u).Go(p, code))
  {
    hide RingOf, ListsOk, UniqueKeys;
    var t := Written(s, b).Set(b, x, u).Go(p, code);
    assert BufOk(s.c.bufs[b], s.use[b]);
    WrittenCoherent(s.c.bufs, s.use, s.disk, s.flat, b, x, u);
    SetKeepsRings(s.c.ring, s.c.nodev, s.c.bufs, b, x);
    ListsMark(s.c.free, s.c.queue, s.c.active, s.use, b, u);
    OthersParked(s, t, p, b);
    Assembled(t, p);
  }

  lemma CallKeeps(s: Sys, p: int, op: Op)
    requires Inv(s) && Enabled(s, EvCall(p, op))
    ensures Inv(Call(s, p, op))
  {
    hide Sound, Others, Written, ToWrite;
    Caller(s, p, op);
    match op
    case OpGetBlk(dev, blkno) => MovesKeeps(s, p, GetBlk(dev, blkno, ToClient));
    case OpBread(blkno) => MovesKeeps(s, p, GetBlk(ROOTDEV, blkno, ToBread));
    case OpBreada(blkno, ra) =>
      if s.c.InCore(blkno) < 0 {
        MovesKeeps(s, p, GetBlk(ROOTDEV, blkno, ToBreada(ra)));
      } else {
        MovesKeeps(s, p, Finish(-1, blkno));
      }
    case OpModify(b, data) =>
      HandsKeeps(s, p, b, s.c.bufs[b].(data := data), true, Client);
      var t := s.Set(b, s.c.B(b).(data := data), Held(p, true));
      assert t.procs[p := Proc(Client, Awake)] == t.procs;
      assert t.Go(p, Client) == t;
    case OpBrelse(b) =>
      HandsKeeps(s, p, b, s.c.bufs[b], false, Wake(b, Client));
      assert s.c.bufs[b := s.c.bufs[b]] == s.c.bufs;
    case OpBwrite(b) => WrittenKeeps(s, p, b, ToWrite(s.c.bufs[b], false), Ordered(p, false), Submit(b, Wait(b, -1, false)));
    case OpBawrite(b) => WrittenKeeps(s, p, b, ToWrite(s.c.bufs[b], true), Ordered(NOBODY, false), Submit(b, Client));
    case OpBdwrite(b) =>
      WrittenKeeps(s, p, b, s.c.bufs[b].(delwri := true, done := true), Held(p, false), Wake(b, Client));
    case OpBflush(dev) => MovesKeeps(s, p, Flush(dev));
  }

  // Interrupts.

  /** What a completion does to everything but the data. */
  ghost predicate Completed(s: Sys, t: Sys, b: int) {
    && |t.procs| == |s.procs| && |t.flat| == |s.flat| && t.cur == s.cur
    && |s.use| == |s.c.bufs| == |t.use| == |t.c.bufs| && 0 <= b < |s.use|
    && (forall q :: s.IsProc(q) ==>
          t.procs[q].code == s.procs[q].code
          && (t.procs[q].chan == s.procs[q].chan
              || (t.procs[q].chan == Awake && (s.procs[q].chan == OnBuf(b) || s.procs[q].chan == OnFree))))
    && (forall x :: 0 <= x < |s.use| && x != b ==> t.c.bufs[x] == s.c.bufs[x] && t.use[x] == s.use[x])
    && s.use[b].Queued? && SameKey(t.c.bufs[b], s.c.bufs[b]) && t.c.bufs[b].done && !t.c.bufs[b].delwri
    && t.use[b] == (if s.use[b].who == NOBODY then Idle else Held(s.use[b].who, false))
    && NoSleepers(t.procs, OnBuf(b))
    && (s.c.free != [] ==> t.c.free != []) && (t.c.wanted ==> s.c.wanted)
    && ((t.c.free == s.c.free && t.c.wanted == s.c.wanted) || NoSleepers(t.procs, OnFree))
  }

  lemma ParkedCompleted(s: Sys, t: Sys, b: int, q: int)
    requires Completed(s, t, b) && s.IsProc(q) && Parked(s, q)
    ensures Parked(t, q)
  {
    hide Resumable, KeptBlock;
    assert t.procs[q].code == s.procs[q].code;
    assert t.procs[q].chan != OnBuf(b);
  }

  lemma RunningCompleted(s: Sys, t: Sys, b: int, p: int)
    requires Completed(s, t, b) && s.IsProc(p) && Running(s, p)
    requires forall n :: Uncached(s.c.bufs, n) ==> Uncached(t.c.bufs, n)
    ensures Running(t, p)
  {
    hide Resumable, KeptBlock, Uncached, ThenOk;
    assert t.procs[p].code == s.procs[p].code;
    match s.procs[p].code
    case Link(x, _) =>
      forall q | 0 <= q < |t.procs| ensures t.procs[q].chan != OnBuf(x) && t.procs[q].chan != OnFree {
        assert s.procs[q].chan != OnBuf(x) && s.procs[q].chan != OnFree;
      }
    case _ =>
  }

  lemma ProcsCompleted(s: Sys, t: Sys, b: int)
    requires Completed(s, t, b) && ProcsOk(s)
    requires forall n :: Uncached(s.c.bufs, n) ==> Uncached(t.c.bufs, n)
    ensures ProcsOk(t)
  {
    hide Parked, Running, Uncached;
    forall q | t.IsProc(q) && q != t.cur ensures Parked(t, q) {
      ParkedCompleted(s, t, b, q);
    }
    if s.cur != NOBODY {
      RunningCompleted(s, t, b, s.cur);
    }
  }

  lemma SameKeysUncached(bufs: seq<Buf>, b: int, x: Buf, n: int)
    requires 0 <= b < |bufs| && SameKey(bufs[b], x) && Uncached(bufs, n)
    ensures Uncached(bufs[b := x], n)
  {
  }

  /** The head of the queue: what its request is. */
  lemma HeadRequest(s: Sys)
    requires Sound(s) && s.c.queue != []
    ensures var b := s.c.queue[0];
            && 0 <= b < |s.c.bufs| == |s.use| && s.use[b].Queued? && s.c.active == 1
            && BufOk(s.c.bufs[b], s.use[b]) && DataOk(s.c.bufs[b], s.use[b], s.disk, s.flat)
            && b !in s.c.queue[1..]
  {
    hide RingOf;
    DistinctTail(s.c.queue);
    HeadAndTail(s.c.queue);
  }

  lemma ListsComplete(free: seq<int>, queue: seq<int>, active: int, use: seq<Use>, u: Use)
    requires ListsOk(free, queue, active, use) && queue != [] && !u.Queued?
    ensures 0 <= queue[0] < |use|
    ensures ListsOk(if u.Idle? then free + [queue[0]] else free, queue[1..], if |queue| > 1 then 1 else 0, use[queue[0] := u])
  {
    hide Distinct;
    DistinctTail(queue);
    HeadAndTail(queue);
    DistinctSnoc(free, queue[0]);
  }

  /** The transfer that was asked for: into the buffer, or onto the disk, where it makes the disk agree. */
  lemma TransferCoherent(bufs: seq<Buf>, use: seq<Use>, disk: seq<Block>, flat: seq<Block>, b: int, y: Buf, u: Use)
    requires Coherent(bufs, use, disk, flat) && UniqueKeys(bufs) && 0 <= b < |bufs| && use[b].Queued?
    requires 0 <= bufs[b].blkno < |disk| && SameKey(bufs[b], y) && y.blkno == bufs[b].blkno && y.done && !y.delwri
    requires y.data == if bufs[b].read then disk[y.blkno] else bufs[b].data
    requires BufOk(y, u) && !Writing(u) && (u.Held? ==> !u.dirty)
    ensures Coherent(bufs[b := y], use[b := u], if bufs[b].read then disk else disk[y.blkno := bufs[b].data], flat)
    ensures UniqueKeys(bufs[b := y])
  {
    var n := bufs[b].blkno;
    var bufs' := bufs[b := y];
    assert BufOk(bufs[b], use[b]) && DataOk(bufs[b], use[b], disk, flat);
    var disk' := if bufs[b].read then disk else disk[n := bufs[b].data];
    assert disk'[n] == flat[n] == y.data;
    forall a | 0 <= a < |bufs| ensures BufOk(bufs'[a], use[b := u][a]) && DataOk(bufs'[a], use[b := u][a], disk', flat) {
      assert BufOk(bufs[a], use[a]) && DataOk(bufs[a], use[a], disk, flat);
    }
    forall m | 0 <= m < |disk| && Uncached(bufs', m) ensures disk'[m] == flat[m] {
      assert !bufs'[b].Holds(ROOTDEV, m);
      forall a | 0 <= a < |bufs| ensures !bufs[a].Holds(ROOTDEV, m) {
        assert !bufs'[a].Holds(ROOTDEV, m);
      }
    }
  }

  /** The buffer that `Complete` leaves. */
  function Finished(s: Sys): Buf
    requires s.c.queue != []
  {
    var x := s.c.B(s.c.queue[0]);
    var data := if x.read && 0 <= x.blkno < |s.disk| then s.disk[x.blkno] else x.data;
    if x.async then x.(data := data, done := true, wanted := false, busy := false, async := false)
    else x.(data := data, done := true, wanted := false)
  }

  function UseAfter(u: Use): Use {
    if !u.Queued? then u else if u.who == NOBODY then Idle else Held(u.who, false)
  }

  lemma CompleteParts(s: Sys)
    requires s.c.queue != []
    requires var b := s.c.queue[0];
             && 0 <= b < |s.c.bufs| == |s.use| && s.use[b].Queued? && (s.c.bufs[b].async <==> s.use[b].who == NOBODY)
             && 0 <= s.c.bufs[b].blkno < |s.disk|
    ensures var t, b := Complete(s), s.c.queue[0];
            var x := s.c.bufs[b];
            && t.c.bufs == s.c.bufs[b := Finished(s)]
            && t.use == s.use[b := UseAfter(s.use[b])]
            && t.disk == (if x.read then s.disk else s.disk[x.blkno := x.data])
            && t.flat == s.flat && t.cur == s.cur
            && t.c.free == (if x.async then s.c.free + [b] else s.c.free)
            && t.c.wanted == (s.c.wanted && !x.async)
            && t.c.queue == s.c.queue[1..] && t.c.active == (if |s.c.queue| > 1 then 1 else 0)
            && t.c.ring == s.c.ring && t.c.nodev == s.c.nodev
            && t.procs ==
                 if !x.async then WakeUpAll(s.procs, OnBuf(b))
                 else
                   var procs := if x.wanted then WakeUpAll(s.procs, OnBuf(b)) else s.procs;
                   if s.c.wanted then WakeUpAll(procs, OnFree) else procs
  {
    hide WakeUpAll;
  }

  /** Whoever sleeps on a buffer has raised its flag, or waits for its request. */
  lemma SleeperOn(s: Sys, b: int, q: int)
    requires ProcsOk(s) && s.IsProc(q) && s.procs[q].chan == OnBuf(b)
    ensures s.c.B(b).wanted || (s.U(b).Queued? && s.U(b).who == q)
  {
  }

  lemma SleeperOnFree(s: Sys, q: int)
    requires ProcsOk(s) && s.IsProc(q) && s.procs[q].chan == OnFree
    ensures s.c.wanted && s.c.free == []
  {
  }

  lemma CompletedHolds(s: Sys)
    requires Inv(s) && s.c.queue != []
    ensures Completed(s, Complete(s), s.c.queue[0])
  {
    hide RingOf, ListsOk, UniqueKeys, Coherent, ProcsOk, Complete;
    HeadRequest(s);
    var t, b := Complete(s), s.c.queue[0];
    BlockInRange(s, b);
    CompleteParts(s);
    forall q | s.IsProc(q) ensures t.procs[q].chan != OnBuf(b) {
      if s.procs[q].chan == OnBuf(b) {
        SleeperOn(s, b, q);
      }
    }
    if s.c.bufs[b].async {
      forall q | s.IsProc(q) ensures t.procs[q].chan != OnFree {
        if s.procs[q].chan == OnFree {
          SleeperOnFree(s, q);
        }
      }
    }
  }

  lemma CompleteKeeps(s: Sys)
    requires Inv(s) && Enabled(s, EvComplete)
    ensures Inv(Complete(s))
  {
    hide RingOf, ListsOk, UniqueKeys, Coherent, Parked, Running, DataOk, Completed, Uncached, Complete, WakeUpAll;
    HeadRequest(s);
    var t, b := Complete(s), s.c.queue[0];
    BlockInRange(s, b);
    CompleteParts(s);
    var y := Finished(s);
    TransferCoherent(s.c.bufs, s.use, s.disk, s.flat, b, y, t.use[b]);
    SetKeepsRings(s.c.ring, s.c.nodev, s.c.bufs, b, y);
    ListsComplete(s.c.free, s.c.queue, s.c.active, s.use, t.use[b]);
    forall n | Uncached(s.c.bufs, n) ensures Uncached(t.c.bufs, n) {
      SameKeysUncached(s.c.bufs, b, y, n);
    }
    CompletedHolds(s);
    ProcsCompleted(s, t, b);
  }

  lemma BlockInRange(s: Sys, b: int)
    requires Sound(s) && 0 <= b < |s.c.bufs| && s.c.bufs[b].dev >= 0
    ensures 0 <= s.c.bufs[b].blkno < |s.disk| == |s.flat|
  {
    assert DataOk(s.c.bufs[b], s.use[b], s.disk, s.flat);
  }

  lemma RetryKeeps(s: Sys, junk: Block)
    requires Inv(s) && Enabled(s, EvRetry(junk))
    ensures Inv(Retry(s, junk))
  {
    hide RingOf, ListsOk, UniqueKeys, Resumable, ThenOk, KeptBlock;
    HeadRequest(s);
    var t, b := Retry(s, junk), s.c.queue[0];
    BlockInRange(s, b);
    var x := s.c.bufs[b];
    if x.read {
      SetCoherent(s.c.bufs, s.use, s.disk, s.flat, b, x.(data := junk), s.use[b]);
      assert s.use[b := s.use[b]] == s.use;
      SetKeepsRings(s.c.ring, s.c.nodev, s.c.bufs, b, x.(data := junk));
    } else {
      JunkCoherent(s.c.bufs, s.use, s.disk, s.flat, b, junk);
    }
    SameProcsOk(s, t, b);
  }

  /** While a write is pending, the block's place on the disk does not matter. */
  lemma JunkCoherent(bufs: seq<Buf>, use: seq<Use>, disk: seq<Block>, flat: seq<Block>, b: int, junk: Block)
    requires Coherent(bufs, use, disk, flat) && UniqueKeys(bufs) && 0 <= b < |bufs| && Writing(use[b])
    requires 0 <= bufs[b].blkno < |disk|
    ensures Coherent(bufs, use, disk[bufs[b].blkno := junk], flat)
  {
    var n := bufs[b].blkno;
    var disk' := disk[n := junk];
    assert BufOk(bufs[b], use[b]) && DataOk(bufs[b], use[b], disk, flat);
    forall a | 0 <= a < |bufs| ensures DataOk(bufs[a], use[a], disk', flat) {
      assert BufOk(bufs[a], use[a]) && DataOk(bufs[a], use[a], disk, flat);
    }
    assert !Uncached(bufs, n);
  }

  /** Only data has changed. */
  lemma SameProcsOk(s: Sys, t: Sys, b: int)
    requires ProcsOk(s) && s.procs == t.procs && s.cur == t.cur && s.use == t.use && |s.flat| == |t.flat|
    requires s.c.free == t.c.free && s.c.wanted == t.c.wanted && |s.c.bufs| == |s.use| && s.c.Has(b)
    requires t.c.bufs == s.c.bufs[b := s.c.bufs[b].(data := t.c.B(b).data)]
    ensures ProcsOk(t)
  {
    hide Resumable, KeptBlock, ThenOk;
    forall q | t.IsProc(q) && q != t.cur ensures Parked(t, q) {
      assert Parked(s, q);
    }
    if s.cur != NOBODY && s.procs[s.cur].code.Pick? {
      var n := s.procs[s.cur].code.blkno;
      if Uncached(s.c.bufs, n) {
        SameKeysUncached(s.c.bufs, b, t.c.bufs[b], n);
      }
    }
  }

  lemma EventKeeps(s: Sys, e: Event)
    requires Inv(s) && Enabled(s, e)
    ensures Inv(Apply(s, e))
  {
    hide Inv, Enabled, Step, Call, Complete, Retry;
    match e
    case EvCall(p, op) => CallKeeps(s, p, op);
    case EvStep(p) => StepKeeps(s, p);
    case EvComplete => CompleteKeeps(s);
    case EvRetry(junk) => RetryKeeps(s, junk);
  }

  lemma {:induction false} UpwardLists(n: nat)
    ensures Distinct(Upward(n)) && forall b :: b in Upward(n) <==> 0 <= b < n
  {
    if n > 0 {
      UpwardLists(n - 1);
      DistinctSnoc(Upward(n - 1), n - 1);
    }
  }

  lemma {:induction false} DownwardLists(n: nat)
    ensures Distinct(Downward(n)) && forall b :: b in Downward(n) <==> 0 <= b < n
  {
    if n > 0 {
      DownwardLists(n - 1);
      DistinctCons(n - 1, Downward(n - 1));
    }
  }

  lemma InitKeeps(s: Sys)
    requires Init(s)
    ensures Inv(s)
  {
    hide Distinct, Upward, Downward;
    UpwardLists(NBUF);
    DownwardLists(NBUF);
    UpwardLists(0);
    assert Upward(0) == [];
  }

  /** Every state of every run from the start keeps the invariant. */
  lemma {:induction false} RunKeeps(s: Sys, es: seq<Event>, t: Sys)
    requires Inv(s) && Run(s, es, t)
    ensures Inv(t)
    decreases |es|
  {
    hide Inv, Enabled, Apply;
    if es != [] {
      EventKeeps(s, es[0]);
      RunKeeps(Apply(s, es[0]), es[1..], t);
    }
  }
}
