/** Each step of a process inside the cache keeps the invariant. */
module CacheSteps {
  import opened Sequences
  import opened Words
  import opened Cache
  import opened CacheRuns
  import opened CacheInvariant

  /** Whoever may take a step is in the state of a running process, and everybody else is parked. */
  lemma Enters(s: Sys, p: int)
    requires ProcsOk(s) && Enabled(s, EvStep(p))
    ensures Running(s, p) && forall q :: s.IsProc(q) && q != p ==> Parked(s, q)
  {
  }

  predicate NotOthers(u: Use, p: int) {
    match u
    case Idle => true
    case Held(q, _) => q == p
    case Ordered(who, _) => who == p || who == NOBODY
    case Queued(who, _) => who == p || who == NOBODY
  }

  /** Nothing that parked processes rely on is lost when `p` changes buffer `b`. */
  ghost predicate Undisturbed(s: Sys, t: Sys, p: int, b: int) {
    && |t.procs| == |s.procs| && |t.flat| == |s.flat|
    && |s.use| == |s.c.bufs| == |t.use| == |t.c.bufs|
    && (forall q :: s.IsProc(q) && q != p ==> t.procs[q] == s.procs[q])
    && (forall x :: 0 <= x < |s.use| && x != b ==> t.c.bufs[x] == s.c.bufs[x] && t.use[x] == s.use[x])
    && (NotOthers(s.U(b), p)
        || (t.U(b) == s.U(b) && t.c.B(b) == s.c.B(b).(wanted := t.c.B(b).wanted, data := t.c.B(b).data)))
    && (NoSleepers(s.procs, OnBuf(b)) || (s.c.B(b).busy && s.c.B(b).wanted ==> t.c.B(b).busy && t.c.B(b).wanted))
    && (NoSleepers(s.procs, OnFree) || (s.c.free == [] && s.c.wanted ==> t.c.free == [] && t.c.wanted))
  }

  lemma OtherParked(s: Sys, t: Sys, p: int, b: int, q: int)
    requires s.IsProc(q) && q != p && Parked(s, q)
    requires Undisturbed(s, t, p, b)
    ensures Parked(t, q)
  {
    hide Resumable, KeptBlock;
    assert t.procs[q] == s.procs[q];
    var k := Kept(s.procs[q].code);
    assert KeptOk(t, q, t.procs[q].code);
    match s.procs[q].code
    case Client =>
    case GetBlk(_, _, _) => 
      match s.procs[q].chan {
        case Awake =>
        case OnBuf(x) => assert s.procs[q].chan == OnBuf(x); assert t.c.B(x).busy && t.c.B(x).wanted;
        case OnFree => assert s.procs[q].chan == OnFree; assert t.c.wanted;
      }
    case Wait(_, _, _) =>
      match s.procs[q].chan {
        case Awake => assert t.c.B(k).done;
        case OnBuf(x) => assert t.U(k).Queued?;
        case OnFree => 
      }
    case _ => 
  }

  lemma OthersParked(s: Sys, t: Sys, p: int, b: int)
    requires forall q :: s.IsProc(q) && q != p ==> Parked(s, q)
    requires Undisturbed(s, t, p, b)
    ensures forall q :: t.IsProc(q) && q != p ==> Parked(t, q)
  {
    hide Parked, Undisturbed;
    forall q | t.IsProc(q) && q != p ensures Parked(t, q) {
      assert s.IsProc(q) by { SameProcs(s, t, p, b); }
      OtherParked(s, t, p, b, q);
    }
  }

  lemma SameProcs(s: Sys, t: Sys, p: int, b: int)
    requires Undisturbed(s, t, p, b)
    ensures |t.procs| == |s.procs|
  {
  }

  lemma ListsTake(free: seq<int>, queue: seq<int>, active: int, use: seq<Use>, b: int, u: Use)
    requires ListsOk(free, queue, active, use) && 0 <= b < |use| && use[b].Idle? && !u.Idle? && !u.Queued?
    ensures ListsOk(Without(free, b), queue, active, use[b := u])
  {
    hide Distinct, Without;
    DistinctWithout(free, b);
  }

  lemma ListsLink(free: seq<int>, queue: seq<int>, active: int, use: seq<Use>, b: int)
    requires ListsOk(free, queue, active, use) && 0 <= b < |use| && !use[b].Idle? && !use[b].Queued?
    ensures ListsOk(free + [b], queue, active, use[b := Idle])
  {
    hide Distinct;
    DistinctSnoc(free, b);
  }

  lemma ListsEnqueue(free: seq<int>, queue: seq<int>, active: int, use: seq<Use>, b: int, who: int, read: bool)
    requires ListsOk(free, queue, active, use) && 0 <= b < |use| && use[b].Ordered?
    ensures ListsOk(free, queue + [b], if active == 0 then 1 else active, use[b := Queued(who, read)])
  {
    hide Distinct;
    DistinctSnoc(queue, b);
  }

  lemma ListsMark(free: seq<int>, queue: seq<int>, active: int, use: seq<Use>, b: int, u: Use)
    requires ListsOk(free, queue, active, use) && 0 <= b < |use| && use[b].Idle? == u.Idle? && use[b].Queued? == u.Queued?
    ensures ListsOk(free, queue, active, use[b := u])
  {
    hide Distinct;
  }

  ghost predicate Others(s: Sys, p: int) {
    forall q :: s.IsProc(q) && q != p ==> Parked(s, q)
  }

  /** `p` either has the processor in the middle of a call, or nobody has and `p` is parked. */
  ghost predicate Ready(s: Sys, p: int)
    requires s.IsProc(p)
  {
    (s.cur == NOBODY && Parked(s, p)) || (s.cur == p && Running(s, p))
  }

  lemma Assembled(t: Sys, p: int)
    requires t.IsProc(p) && Sound(t) && Others(t, p) && Ready(t, p)
    ensures Inv(t)
  {
    hide Sound, Parked, Running;
  }

  /** A search finds the block's buffer if there is one. */
  lemma InCoreFacts(s: Sys, blkno: int)
    requires Sound(s)
    ensures var b := s.c.InCore(blkno);
            if b >= 0 then s.c.Has(b) && b < |s.use| && s.c.bufs[b].Holds(ROOTDEV, blkno) && (s.use[b].Idle? <==> !s.c.bufs[b].busy)
            else Uncached(s.c.bufs, blkno)
    ensures |s.use| == |s.c.bufs| == NBUF && |s.disk| == |s.flat|
  {
  }

  /** Setting `B_WANTED` on a busy buffer. */
  lemma FlagKeeps(s: Sys, b: int, x: Buf)
    requires Sound(s) && s.c.Has(b) && s.c.bufs[b].busy && x == s.c.bufs[b].(wanted := true)
    ensures b < |s.use| && Sound(s.(c := s.c.Put(b, x)))
  {
    hide RingOf, ListsOk, UniqueKeys;
    SetCoherent(s.c.bufs, s.use, s.disk, s.flat, b, x, s.use[b]);
    assert s.use[b := s.use[b]] == s.use;
    SetKeepsRings(s.c.ring, s.c.nodev, s.c.bufs, b, x);
  }

  /** Going to sleep after raising a flag. */
  lemma SleepsKeeps(s: Sys, p: int, b: int, t: Sys)
    requires Sound(s) && Others(s, p) && s.IsProc(p) && Running(s, p) && s.procs[p].code.GetBlk?
    requires
      || (s.c.Has(b) && s.c.bufs[b].busy && t == s.(c := s.c.Put(b, s.c.bufs[b].(wanted := true))).Sleep(p, OnBuf(b)))
      || (b == -1 && s.c.free == [] && t == s.(c := s.c.(wanted := true)).Sleep(p, OnFree))
    ensures Inv(t)
  {
    hide RingOf, ListsOk, Coherent, UniqueKeys, RequestOk;
    InCoreFacts(s, 0);
    if b >= 0 {
      FlagKeeps(s, b, s.c.bufs[b].(wanted := true));
    }
    OthersParked(s, t, p, b);
    Assembled(t, p);
  }

  lemma MovesKeeps(s: Sys, p: int, code: Code)
    requires Sound(s) && Others(s, p) && s.IsProc(p) && Ready(s.Go(p, code), p)
    ensures Inv(s.Go(p, code))
  {
    hide Coherent, UniqueKeys, RingsOk, ListsOk, Running, KeptOk, Resumable;
    InCoreFacts(s, 0);
    OthersParked(s, s.Go(p, code), p, -1);
    Assembled(s.Go(p, code), p);
  }

  lemma GetBlkKeeps(s: Sys, p: int, dev: int, blkno: int, then_: Then)
    requires Inv(s) && Enabled(s, EvStep(p)) && s.procs[p].code == GetBlk(dev, blkno, then_)
    ensures Inv(StepGetBlk(s, p, dev, blkno, then_))
  {
    hide Sound, ProcsOk, ThenOk, Find, Parked;
    Enters(s, p);
    InCoreFacts(s, blkno);
    var b := if dev < 0 then -1 else s.c.InCore(blkno);
    if b >= 0 {
      if s.c.bufs[b].busy {
        SleepsKeeps(s, p, b, StepGetBlk(s, p, dev, blkno, then_));
      } else {
        MovesKeeps(s, p, Take(b, blkno, then_));
      }
    } else if s.c.free == [] {
      SleepsKeeps(s, p, -1, StepGetBlk(s, p, dev, blkno, then_));
    } else {
      MovesKeeps(s, p, Pick(dev, blkno, then_));
    }
  }

  lemma TakeKeeps(s: Sys, p: int, b: int, blkno: int, then_: Then)
    requires Inv(s) && Enabled(s, EvStep(p)) && s.procs[p].code == Take(b, blkno, then_)
    ensures Inv(StepTake(s, p, b, blkno, then_))
  {
    hide RingOf, ListsOk, UniqueKeys, ThenOk, Without;
    Enters(s, p);
    var t := StepTake(s, p, b, blkno, then_);
    SetCoherent(s.c.bufs, s.use, s.disk, s.flat, b, s.c.bufs[b].(busy := true), Held(p, false));
    SetKeepsRings(s.c.ring, s.c.nodev, s.c.bufs, b, s.c.bufs[b].(busy := true));
    ListsTake(s.c.free, s.c.queue, s.c.active, s.use, b, Held(p, false));
    OthersParked(s, t, p, b);
    Assembled(t, p);
  }

  lemma FreeIsIdle(s: Sys, b: int)
    requires Sound(s) && b in s.c.free
    ensures s.c.Has(b) && b < |s.use| && s.use[b].Idle?
  {
  }

  /** A delayed write leaves the free list for the queue. */
  lemma WriteBackKeeps(s: Sys, p: int, b: int, next: Code)
    requires Sound(s) && Others(s, p) && s.IsProc(p) && Running(s, p)
    requires b in s.c.free && s.c.Has(b) && s.c.bufs[b].delwri
    requires Resumable(next, |s.flat|) && KeptOk(s, p, next) && !next.Wait?
    ensures var c := s.c.NotAvail(b);
            Inv(s.(c := c).Set(b, ToWrite(c.B(b), true), Ordered(NOBODY, false)).Go(p, Submit(b, next)))
  {
    hide RingOf, ListsOk, UniqueKeys, Resumable, Without;
    FreeIsIdle(s, b);
    var c := s.c.NotAvail(b);
    var t := s.(c := c).Set(b, ToWrite(c.B(b), true), Ordered(NOBODY, false)).Go(p, Submit(b, next));
    var x := ToWrite(s.c.bufs[b].(busy := true), true);
    assert t.c.bufs == s.c.bufs[b := x];
    SetCoherent(s.c.bufs, s.use, s.disk, s.flat, b, x, Ordered(NOBODY, false));
    SetKeepsRings(s.c.ring, s.c.nodev, s.c.bufs, b, x);
    ListsTake(s.c.free, s.c.queue, s.c.active, s.use, b, Ordered(NOBODY, false));
    OthersParked(s, t, p, b);
    Assembled(t, p);
  }

  lemma RelinkKeeps(s: Sys, p: int, b: int, dev: int, blkno: int, then_: Then)
    requires Sound(s) && Others(s, p) && s.IsProc(p) && Running(s, p) && s.procs[p].code == Pick(dev, blkno, then_)
    requires b in s.c.free && s.c.Has(b) && !s.c.bufs[b].delwri
    ensures Inv(s.(c := s.c.NotAvail(b).Relink(b, dev, blkno)).Mark(b, Held(p, false)).Go(p, Obtained(b, dev, blkno, then_)))
  {
    hide RingOf, ListsOk, UniqueKeys, ThenOk, Without;
    FreeIsIdle(s, b);
    var t := s.(c := s.c.NotAvail(b).Relink(b, dev, blkno)).Mark(b, Held(p, false)).Go(p, Obtained(b, dev, blkno, then_));
    var x := Buf(true, false, false, false, false, false, dev, blkno, s.c.bufs[b].data);
    assert t.c.bufs == s.c.bufs[b := x];
    RelinkCoherent(s.c.bufs, s.use, s.disk, s.flat, b, x, p);
    RelinkKeepsRings(s.c, b, dev, blkno);
    ListsTake(s.c.free, s.c.queue, s.c.active, s.use, b, Held(p, false));
    OthersParked(s, t, p, b);
    Assembled(t, p);
  }

  lemma PickKeeps(s: Sys, p: int, dev: int, blkno: int, then_: Then)
    requires Inv(s) && Enabled(s, EvStep(p)) && s.procs[p].code == Pick(dev, blkno, then_)
    ensures Inv(StepPick(s, p, dev, blkno, then_))
  {
    hide Sound, ProcsOk, ThenOk, Without, Parked;
    Enters(s, p);
    var b := s.c.free[0];
    FreeIsIdle(s, b);
    if s.c.bufs[b].delwri {
      WriteBackKeeps(s, p, b, GetBlk(dev, blkno, then_));
    } else {
      RelinkKeeps(s, p, b, dev, blkno, then_);
    }
  }

  /** Ordering a read into a buffer that holds nothing yet. */
  lemma OrderKeeps(s: Sys, p: int, b: int, who: int, next: Code)
    requires Sound(s) && Others(s, p) && s.IsProc(p) && Running(s, p)
    requires s.U(b) == Held(p, false) && s.c.B(b).dev >= 0 && !s.c.B(b).done && (who == p || who == NOBODY)
    requires Resumable(next, |s.flat|)
    requires if Kept(next) == b then who == p && s.c.B(b).Holds(ROOTDEV, KeptBlock(next)) else KeptOk(s, p, next) && !next.Wait?
    ensures Inv(OrderRead(s, b, who).Go(p, Submit(b, next)))
  {
    hide RingOf, ListsOk, UniqueKeys, Resumable;
    var t := OrderRead(s, b, who).Go(p, Submit(b, next));
    var x := s.c.bufs[b].(read := true, async := who == NOBODY);
    SetCoherent(s.c.bufs, s.use, s.disk, s.flat, b, x, Ordered(who, true));
    SetKeepsRings(s.c.ring, s.c.nodev, s.c.bufs, b, x);
    ListsMark(s.c.free, s.c.queue, s.c.active, s.use, b, Ordered(who, true));
    OthersParked(s, t, p, b);
    Assembled(t, p);
  }

  lemma ObtainedKeeps(s: Sys, p: int, b: int, dev: int, blkno: int, then_: Then)
    requires Inv(s) && Enabled(s, EvStep(p)) && s.procs[p].code == Obtained(b, dev, blkno, then_)
    ensures Inv(StepObtained(s, p, b, dev, blkno, then_))
  {
    hide Sound, ProcsOk, Parked;
    Enters(s, p);
    var done := s.c.B(b).done;
    match then_
    case ToClient => MovesKeeps(s, p, Got(b, dev, blkno, false));
    case ToBread =>
      if done {
        MovesKeeps(s, p, Got(b, dev, blkno, true));
      } else {
        OrderKeeps(s, p, b, p, Wait(b, blkno, true));
      }
    case ToBreada(ra) =>
      if done {
        MovesKeeps(s, p, Ahead(b, blkno, ra));
      } else {
        OrderKeeps(s, p, b, p, Ahead(b, blkno, ra));
      }
    case ToAhead(first, main) =>
      if done {
        MovesKeeps(s, p, Wake(b, Finish(first, main)));
      } else {
        OrderKeeps(s, p, b, NOBODY, Finish(first, main));
      }
  }

  lemma SubmitKeeps(s: Sys, p: int, b: int, next: Code)
    requires Inv(s) && Enabled(s, EvStep(p)) && s.procs[p].code == Submit(b, next)
    ensures Inv(StepSubmit(s, p, b, next))
  {
    hide RingOf, ListsOk, UniqueKeys, ThenOk;
    Enters(s, p);
    var t := StepSubmit(s, p, b, next);
    var u := Queued(s.use[b].who, s.use[b].read);
    SetCoherent(s.c.bufs, s.use, s.disk, s.flat, b, s.c.bufs[b], u);
    assert s.c.bufs[b := s.c.bufs[b]] == s.c.bufs;
    ListsEnqueue(s.c.free, s.c.queue, s.c.active, s.use, b, u.who, u.read);
    OthersParked(s, t, p, b);
    Assembled(t, p);
  }

  lemma WaitKeeps(s: Sys, p: int, b: int, blkno: int, reading: bool)
    requires Inv(s) && Enabled(s, EvStep(p)) && s.procs[p].code == Wait(b, blkno, reading)
    ensures Inv(StepWait(s, p, b, blkno, reading))
  {
    hide RingOf, ListsOk, UniqueKeys, ThenOk;
    Enters(s, p);
    var t := StepWait(s, p, b, blkno, reading);
    OthersParked(s, t, p, b);
    Assembled(t, p);
  }

  lemma LinkKeeps(s: Sys, p: int, b: int, next: Code)
    requires Inv(s) && Enabled(s, EvStep(p)) && s.procs[p].code == Link(b, next)
    ensures Inv(StepLink(s, p, b, next))
  {
    hide RingOf, ListsOk, UniqueKeys, ThenOk;
    Enters(s, p);
    var t := StepLink(s, p, b, next);
    var x := s.c.bufs[b].(wanted := false, busy := false, async := false);
    SetCoherent(s.c.bufs, s.use, s.disk, s.flat, b, x, Idle);
    SetKeepsRings(s.c.ring, s.c.nodev, s.c.bufs, b, x);
    ListsLink(s.c.free, s.c.queue, s.c.active, s.use, b);
    OthersParked(s, t, p, b);
    Assembled(t, p);
  }

  lemma FlushKeeps(s: Sys, p: int, dev: int)
    requires Inv(s) && Enabled(s, EvStep(p)) && s.procs[p].code == Flush(dev)
    ensures Inv(StepFlush(s, p, dev))
  {
    hide Sound, ProcsOk, Without, FirstDelayed;
    Enters(s, p);
    var b := FirstDelayed(s.c.free, s.c.bufs, dev);
    if b >= 0 {
      WriteBackKeeps(s, p, b, Flush(dev));
    } else {
      MovesKeeps(s, p, Client);
    }
  }

  /** Steps that only move the process on. */
  lemma MovesOnKeeps(s: Sys, p: int)
    requires Inv(s) && Enabled(s, EvStep(p))
    requires var code := s.procs[p].code; code.Ahead? || code.Finish? || code.Got?
    ensures Inv(Step(s, p))
  {
    hide Sound, ProcsOk, Find;
    Enters(s, p);
    match s.procs[p].code
    case Ahead(first, main, ra) =>
      MovesKeeps(s, p, GetBlk(ROOTDEV, ra, ToAhead(first, main)));
      MovesKeeps(s, p, Finish(first, main));
    case Finish(first, main) =>
      MovesKeeps(s, p, if first < 0 then GetBlk(ROOTDEV, main, ToBread) else Wait(first, main, true));
    case Got(_, _, _, _) => MovesKeeps(s, p, Client);
  }
}
