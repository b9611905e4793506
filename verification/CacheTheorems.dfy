/** What the invariant means to the cache's users, in every reachable state. */
module CacheTheorems {
  import opened Sequences
  import opened Words
  import opened Cache
  import opened CacheRuns
  import opened CacheInvariant
  import opened CacheSteps
  import opened CacheEvents

  lemma Reachable(s0: Sys, es: seq<Event>, s: Sys)
    requires Init(s0) && Run(s0, es, s)
    ensures Inv(s)
  {
    InitKeeps(s0);
    RunKeeps(s0, es, s);
  }

  /**
   Transparency: at the point where `Bread` or `Breada` hands over a buffer, it is the block's only
   buffer, in the caller's sole use, and holds what a disk without a cache would hold.
   */
  lemma BreadSeesTheFlatDisk(s0: Sys, es: seq<Event>, s: Sys, p: int)
    requires Init(s0) && Run(s0, es, s) && s.IsProc(p) && s.procs[p].code.Got? && s.procs[p].code.reading
    ensures var b, n := s.procs[p].code.b, s.procs[p].code.blkno;
            && s.c.Has(b) && 0 <= n < |s.flat| && s.U(b) == Held(p, false)
            && s.c.bufs[b].Holds(ROOTDEV, n) && s.c.bufs[b].data == s.flat[n]
            && forall a :: s.c.Has(a) && s.c.bufs[a].Holds(ROOTDEV, n) ==> a == b
  {
    Reachable(s0, es, s);
    var b := s.procs[p].code.b;
    assert Running(s, p);
    assert BufOk(s.c.bufs[b], s.use[b]) && DataOk(s.c.bufs[b], s.use[b], s.disk, s.flat);
  }

  /** The buffer that a process's next step may change, or -1. */
  function Target(s: Sys, p: int): int
    requires s.IsProc(p)
  {
    match s.procs[p].code
    case GetBlk(dev, blkno, _) => if dev < 0 then -1 else s.c.InCore(blkno)
    case Take(b, _, _) => b
    case Pick(_, _, _) => if s.c.free == [] then -1 else s.c.free[0]
    case Obtained(b, _, _, _) => b
    case Submit(b, _) => b
    case Wait(b, _, _) => b
    case Link(b, _) => b
    case Flush(dev) => FirstDelayed(s.c.free, s.c.bufs, dev)
    case _ => -1
  }

  lemma StepTouches(s: Sys, p: int)
    requires s.IsProc(p)
    ensures TouchesOnly(s, Step(s, p), Target(s, p))
  {
    hide TouchesOnly, StepGetBlk, StepTake, StepPick, StepObtained, StepSubmit, StepWait, StepLink, StepAhead,
         StepFinish, StepFlush, WakeWaiters, FirstDelayed, Find;
    match s.procs[p].code
    case Client => TouchesNothing(s, s);
    case Wake(b, next) => TouchesNothing(s, WakeWaiters(s, b));
    case Got(_, _, _, _) => TouchesNothing(s, s);
    case _ =>
  }

  lemma TouchesNothing(s: Sys, t: Sys)
    ensures TouchesOnly(s, s, -1)
    ensures TouchesOnly(s, t, -1) ==> forall p, code :: t.IsProc(p) ==> TouchesOnly(s, t.Go(p, code), -1)
  {
  }

  lemma CompleteTouches(s: Sys)
    requires Sound(s) && s.c.queue != []
    ensures var t := Complete(s);
            t.flat == s.flat && t.c.queue == s.c.queue[1..] && LeavesOthers(s, t, s.c.queue[0])
  {
    hide Complete, Coherent, ListsOk, RingsOk, UniqueKeys, WakeUpAll, Finished, UseAfter;
    HeadRequest(s);
    BlockInRange(s, s.c.queue[0]);
    CompleteParts(s);
  }

  predicate IsWrite(op: Op) {
    op.OpBwrite? || op.OpBawrite? || op.OpBdwrite?
  }

  /** The flat disk changes by the write calls alone: one block, to what the caller has in hand. */
  lemma FlatChangesByWrites(s: Sys, e: Event)
    requires Inv(s) && Enabled(s, e)
    ensures if e.EvCall? && IsWrite(e.op)
            then s.c.Has(e.op.b) && s.U(e.op.b).Held? && s.U(e.op.b).p == e.p
                 && 0 <= s.c.bufs[e.op.b].blkno < |s.flat|
                 && Apply(s, e).flat == s.flat[s.c.bufs[e.op.b].blkno := s.c.bufs[e.op.b].data]
            else Apply(s, e).flat == s.flat
  {
    hide ProcsOk, Sound, Step, Complete, Retry;
    match e
    case EvCall(_, op) =>
      if IsWrite(op) {
        HeldFacts(s, op.b);
      }
    case EvStep(p) => StepTouches(s, p);
    case EvComplete => CompleteTouches(s);
    case EvRetry(_) =>
  }

  /** Buffer `b` is as it was, but for `B_WANTED`, and means what it meant. */
  ghost predicate Leaves(s: Sys, t: Sys, b: int) {
    && t.U(b) == s.U(b)
    && t.c.B(b) == s.c.B(b).(wanted := t.c.B(b).wanted)
    && (s.c.B(b).dev >= 0 ==>
          && 0 <= s.c.B(b).blkno < |s.flat| == |t.flat|
          && t.flat[s.c.B(b).blkno] == s.flat[s.c.B(b).blkno])
  }

  lemma HeldFacts(s: Sys, b: int)
    requires Sound(s) && s.U(b).Held?
    ensures s.c.Has(b) && b !in s.c.free && b !in s.c.queue && |s.use| == |s.c.bufs|
    ensures s.c.bufs[b].busy
    ensures s.c.bufs[b].dev >= 0 ==> s.c.bufs[b].dev == ROOTDEV && 0 <= s.c.bufs[b].blkno < |s.flat|
    ensures forall a :: a in s.c.free || a in s.c.queue ==> 0 <= a < |s.use|
  {
    assert BufOk(s.c.bufs[b], s.use[b]) && DataOk(s.c.bufs[b], s.use[b], s.disk, s.flat);
  }

  lemma StepLeavesOthersBuffers(s: Sys, q: int, b: int)
    requires Inv(s) && Enabled(s, EvStep(q)) && s.U(b).Held? && s.U(b).p != q
    ensures Leaves(s, Step(s, q), b)
  {
    hide Sound, ProcsOk, Find, Without, Resumable, ThenOk, FirstDelayed, KeptBlock, StepGetBlk, StepTake, StepPick,
         StepObtained, StepSubmit, StepWait, StepLink, StepAhead, StepFinish, StepFlush, WakeWaiters;
    Enters(s, q);
    HeldFacts(s, b);
    StepTouches(s, q);
    if s.procs[q].code.GetBlk? {
      GetBlkLeaves(s, q, b);
    } else if s.procs[q].code.Pick? {
      assert s.c.free[0] in s.c.free;
    }
  }

  /** `GetBlk` may at most raise `B_WANTED` on a buffer that somebody holds. */
  lemma GetBlkLeaves(s: Sys, q: int, b: int)
    requires Sound(s) && s.IsProc(q) && s.procs[q].code.GetBlk? && s.U(b).Held?
    ensures Leaves(s, Step(s, q), b)
  {
    hide Sound, Find;
    HeldFacts(s, b);
  }

  lemma {:induction false} HeldBlocksDiffer(s: Sys, a: int, b: int)
    requires Sound(s) && s.U(a).Held? && s.U(b).Held? && a != b && s.c.B(a).dev >= 0 && s.c.B(b).dev >= 0
    ensures s.c.B(a).blkno != s.c.B(b).blkno
  {
    hide RingsOk, ListsOk, Coherent;
    HeldFacts(s, a);
    HeldFacts(s, b);
  }

  /** The write of a held buffer, seen from another held buffer. */
  lemma {:induction false} WriteLeavesOthers(s: Sys, a: int, b: int, x: Buf, u: Use)
    requires Sound(s) && s.U(a).Held? && s.U(b).Held? && a != b && s.c.B(a).dev >= 0
    ensures Leaves(s, Written(s, a).Set(a, x, u), b)
  {
    hide Sound;
    HeldFacts(s, a);
    HeldFacts(s, b);
    if s.c.B(b).dev >= 0 {
      HeldBlocksDiffer(s, a, b);
    }
  }

  lemma {:induction false} CallLeavesOthersBuffers(s: Sys, q: int, op: Op, b: int)
    requires Inv(s) && Enabled(s, EvCall(q, op)) && s.U(b).Held? && s.U(b).p != q
    ensures Leaves(s, Call(s, q, op), b)
  {
    hide Sound, ProcsOk, Find, Written, ToWrite;
    HeldFacts(s, b);
    match op
    case OpBwrite(a) => WriteLeavesOthers(s, a, b, ToWrite(s.c.B(a), false), Ordered(q, false));
    case OpBawrite(a) => WriteLeavesOthers(s, a, b, ToWrite(s.c.B(a), true), Ordered(NOBODY, false));
    case OpBdwrite(a) => WriteLeavesOthers(s, a, b, s.c.B(a).(delwri := true, done := true), Held(q, false));
    case _ =>
  }

  /** Whatever others and the disk do, a held buffer stays as it is, and so does its block's meaning. */
  lemma HeldIsUndisturbed(s: Sys, e: Event, p: int, b: int)
    requires Inv(s) && Enabled(s, e) && s.U(b).Held? && s.U(b).p == p
    requires e.EvCall? || e.EvStep? ==> e.p != p
    ensures Leaves(s, Apply(s, e), b)
  {
    hide Sound, ProcsOk, Step, Call, Complete, Retry, MayCall;
    HeldFacts(s, b);
    match e
    case EvStep(q) => StepLeavesOthersBuffers(s, q, b);
    case EvCall(q, op) => CallLeavesOthersBuffers(s, q, op, b);
    case EvComplete =>
      assert s.c.queue[0] in s.c.queue;
      CompleteTouches(s);
    case EvRetry(_) => assert s.c.queue[0] in s.c.queue;
  }

  /** When a synchronous `Bwrite` has waited for its request, the block is on the disk. */
  lemma SyncWriteIsOnDisk(s0: Sys, es: seq<Event>, s: Sys, p: int)
    requires Init(s0) && Run(s0, es, s) && s.IsProc(p)
    requires s.procs[p].code.Wait? && !s.procs[p].code.reading && s.c.B(s.procs[p].code.b).done
    requires s.c.B(s.procs[p].code.b).dev >= 0
    ensures var x := s.c.B(s.procs[p].code.b); 0 <= x.blkno < |s.flat| == |s.disk| && s.disk[x.blkno] == s.flat[x.blkno] == x.data
  {
    Reachable(s0, es, s);
    var b := s.procs[p].code.b;
    assert if p == s.cur then Running(s, p) else Parked(s, p);
    assert BufOk(s.c.bufs[b], s.use[b]) && DataOk(s.c.bufs[b], s.use[b], s.disk, s.flat);
  }

  /** No wakeup is lost: whatever a process sleeps on is still to happen, and a wakeup will follow it. */
  lemma NoLostWakeup(s0: Sys, es: seq<Event>, s: Sys, p: int)
    requires Init(s0) && Run(s0, es, s) && s.IsProc(p)
    ensures match s.procs[p].chan
            case OnFree => s.procs[p].code.GetBlk? && s.c.free == [] && s.c.wanted
            case OnBuf(b) =>
              && s.c.Has(b) && s.c.bufs[b].busy
              && if s.procs[p].code.GetBlk? then s.c.bufs[b].wanted
                 else s.procs[p].code.Wait? && b in s.c.queue && !s.c.bufs[b].done && !s.c.bufs[b].async
            // Once woken from `IOWait`, the request is done: there is no second sleep.
            case Awake => s.procs[p].code.Wait? && s.cur != p ==> s.c.B(s.procs[p].code.b).done
  {
    Reachable(s0, es, s);
    if s.cur == p {
      assert Running(s, p);
    } else {
      assert Parked(s, p);
      if s.procs[p].chan.OnBuf? && s.procs[p].code.Wait? {
        var b := s.procs[p].chan.b;
        assert BufOk(s.c.bufs[b], s.use[b]);
      }
    }
  }

  /** The lists in every reachable state. `av_forw` serves one list at a time. */
  lemma ListsAreInOrder(s0: Sys, es: seq<Event>, s: Sys)
    requires Init(s0) && Run(s0, es, s)
    ensures Distinct(s.c.free) && Distinct(s.c.queue)
    ensures forall b :: b in s.c.free <==> s.c.Has(b) && !s.c.bufs[b].busy
    ensures forall b :: b in s.c.queue ==> s.c.Has(b) && s.c.bufs[b].busy && b !in s.c.free
    ensures s.c.active == if s.c.queue == [] then 0 else 1
    ensures forall b :: s.c.Has(b) ==> (b in s.c.ring <==> b !in s.c.nodev)
    ensures Distinct(s.c.ring) && Distinct(s.c.nodev)
    ensures forall a, b :: a in s.c.ring && b in s.c.ring && s.c.B(a).blkno == s.c.B(b).blkno ==> a == b
  {
    hide Distinct;
    Reachable(s0, es, s);
    forall b ensures b in s.c.free <==> s.c.Has(b) && !s.c.bufs[b].busy {
      if s.c.Has(b) {
        assert BufOk(s.c.bufs[b], s.use[b]);
      }
    }
    forall b | b in s.c.queue ensures s.c.Has(b) && s.c.bufs[b].busy && b !in s.c.free {
      assert BufOk(s.c.bufs[b], s.use[b]);
    }
    forall b | s.c.Has(b) ensures s.c.bufs[b].dev >= 0 ==> s.c.bufs[b].dev == ROOTDEV {
      assert DataOk(s.c.bufs[b], s.use[b], s.disk, s.flat);
    }
  }

  /** Requests are served in the order they were made: the queue only grows at its end. */
  lemma RequestsAreServedInOrder(s: Sys, e: Event)
    requires Inv(s) && Enabled(s, e)
    ensures var q := Apply(s, e).c.queue;
            if e.EvComplete? then q == s.c.queue[1..] else s.c.queue <= q && |q| <= |s.c.queue| + 1
  {
    hide Sound, ProcsOk, Step, Complete, Retry, Find, Without, Target;
    match e
    case EvStep(p) => StepTouches(s, p);
    case EvComplete => CompleteTouches(s);
    case _ =>
  }

  /** With nothing delayed, nothing being written and nothing modified in hand, the disk is up to date. */
  lemma CleanCacheMeansFlatDisk(s0: Sys, es: seq<Event>, s: Sys)
    requires Init(s0) && Run(s0, es, s)
    requires forall b :: s.c.Has(b) ==> !s.c.bufs[b].delwri && !Writing(s.U(b))
    ensures s.disk == s.flat
  {
    Reachable(s0, es, s);
    forall n | 0 <= n < |s.disk| ensures s.disk[n] == s.flat[n] {
      if !Uncached(s.c.bufs, n) {
        var b :| 0 <= b < |s.c.bufs| && s.c.bufs[b].Holds(ROOTDEV, n);
        assert DataOk(s.c.bufs[b], s.use[b], s.disk, s.flat);
      }
    }
  }

  /** `Bflush` returns only when no free buffer has a delayed write left. */
  lemma FlushLeavesNothingDelayed(s: Sys, p: int)
    requires Inv(s) && Enabled(s, EvStep(p)) && s.procs[p].code.Flush? && Step(s, p).procs[p].code == Client
    requires s.procs[p].code.dev == NODEV || s.procs[p].code.dev == ROOTDEV
    ensures forall b :: b in s.c.free ==> !s.c.B(b).delwri
  {
    hide ProcsOk, RingsOk, UniqueKeys, StepGetBlk, StepTake, StepPick, StepObtained, StepSubmit, StepWait, StepLink,
         StepAhead, StepFinish, WakeWaiters, FirstDelayed, TouchesOnly;
    forall b | b in s.c.free ensures !s.c.B(b).delwri {
      assert BufOk(s.c.bufs[b], s.use[b]) && DataOk(s.c.bufs[b], s.use[b], s.disk, s.flat);
    }
  }

  /**
   Why a modified buffer must be written: plainly releasing one that holds a block's contents keeps
   the cache coherent if and only if the modification changed nothing.
   */
  lemma ReleaseMustBeClean(s: Sys, p: int, b: int)
    requires Inv(s) && s.IsProc(p) && s.cur == NOBODY && s.procs[p].code == Client
    requires s.U(b) == Held(p, true) && s.c.B(b).done && s.c.B(b).dev >= 0
    ensures 0 <= s.c.B(b).blkno < |s.flat|
    ensures var t := Call(s, p, OpBrelse(b));
            Coherent(t.c.bufs, t.use, t.disk, t.flat) <==> s.c.B(b).data == s.flat[s.c.B(b).blkno]
  {
    hide ProcsOk, RingsOk, ListsOk;
    var t := Call(s, p, OpBrelse(b));
    assert BufOk(s.c.bufs[b], s.use[b]) && DataOk(s.c.bufs[b], s.use[b], s.disk, s.flat);
    if s.c.B(b).data == s.flat[s.c.B(b).blkno] {
      SetCoherent(s.c.bufs, s.use, s.disk, s.flat, b, s.c.bufs[b], Held(p, false));
      assert s.c.bufs[b := s.c.bufs[b]] == s.c.bufs;
    } else {
      assert !DataOk(t.c.bufs[b], t.use[b], t.disk, t.flat);
    }
  }

  /** The disk's handler, as the buffer manager carries it out, is what a completion does to the cache. */
  lemma HandlerIsCompletion(s: Sys)
    requires s.c.queue != []
    ensures Complete(s).c == Transfer(s).c.Dequeue().Finished(s.c.queue[0])
  {
    hide WakeUpAll, Transfer;
    var t := Transfer(s);
    IODoneCache(t.(c := t.c.Dequeue()), s.c.queue[0]);
  }

  lemma IODoneCache(s: Sys, b: int)
    ensures IODone(s, b).c == s.c.Finished(b)
  {
    hide WakeUpAll;
  }

  // A read from start to end.

  lemma {:induction false} OneMore(s: Sys, e: Event, next: Sys, es: seq<Event>, t: Sys) returns (more: seq<Event>)
    requires Enabled(s, e) && Apply(s, e) == next && Run(next, es, t)
    ensures more == [e] + es && Run(s, more, t)
  {
    hide Apply, Enabled;
    more := [e] + es;
    assert more[1..] == es;
  }

  lemma {:induction false} Stays(s: Sys)
    ensures Run(s, [], s)
  {
  }

  /** The call and the search for a cached copy. */
  lemma {:induction false} SearchFails(s0: Sys, n: int) returns (s1: Sys, s2: Sys)
    requires Init(s0) && |s0.procs| > 0 && 0 <= n < |s0.disk|
    ensures Enabled(s0, EvCall(0, OpBread(n))) && s1 == Apply(s0, EvCall(0, OpBread(n)))
    ensures Enabled(s1, EvStep(0)) && s2 == Apply(s1, EvStep(0))
    ensures |s2.procs| > 0 && s2.procs[0] == Proc(Pick(ROOTDEV, n, ToBread), Awake) && s2.cur == 0
    ensures s2.c == s0.c && s2.use == s0.use && s2.disk == s0.disk
  {
    hide Without, Upward, Downward;
    s1 := Call(s0, 0, OpBread(n));
    s2 := Step(s1, 0);
  }

  /** The oldest free buffer becomes the block's. */
  lemma {:induction false} BufferIsTaken(s0: Sys, s2: Sys, n: int) returns (s3: Sys)
    requires Init(s0) && s2.c == s0.c && s2.use == s0.use
    requires |s2.procs| > 0 && s2.procs[0] == Proc(Pick(ROOTDEV, n, ToBread), Awake) && s2.cur == 0
    ensures Enabled(s2, EvStep(0)) && s3 == Apply(s2, EvStep(0)) && Ready(s3, n, Obtained(0, ROOTDEV, n, ToBread))
    ensures !s3.c.bufs[0].done && s3.c.queue == [] && s3.c.active == 0 && s3.disk == s2.disk
  {
    hide Without, Upward, Downward;
    s3 := Step(s2, 0);
  }

  /** The process is at `code`, with buffer 0 for block `n`. */
  predicate Ready(s: Sys, n: int, code: Code) {
    && |s.procs| > 0 && s.procs[0] == Proc(code, Awake) && s.cur == 0
    && |s.c.bufs| == NBUF == |s.use| && s.c.bufs[0].Holds(ROOTDEV, n)
  }

  lemma {:induction false} RequestIsMade(s3: Sys, n: int) returns (s4: Sys, s5: Sys)
    requires Ready(s3, n, Obtained(0, ROOTDEV, n, ToBread)) && !s3.c.bufs[0].done
    requires s3.c.queue == [] && s3.c.active == 0
    ensures Enabled(s3, EvStep(0)) && s4 == Apply(s3, EvStep(0)) && Enabled(s4, EvStep(0)) && s5 == Apply(s4, EvStep(0))
    ensures Ready(s5, n, Wait(0, n, true)) && s5.c.queue == [0] && s5.disk == s3.disk
    ensures s5.c.bufs[0].read && !s5.c.bufs[0].async
  {
    s4 := Step(s3, 0);
    assert Ready(s4, n, Submit(0, Wait(0, n, true))) && s4.c.bufs[0].read && !s4.c.bufs[0].async;
    s5 := Step(s4, 0);
  }

  lemma {:induction false} RequestIsServed(s5: Sys, n: int) returns (s6: Sys, s7: Sys)
    requires Ready(s5, n, Wait(0, n, true)) && s5.c.queue == [0] && 0 <= n < |s5.disk|
    requires s5.c.bufs[0].read && !s5.c.bufs[0].async
    ensures Enabled(s5, EvComplete) && s6 == Apply(s5, EvComplete) && Enabled(s6, EvStep(0)) && s7 == Apply(s6, EvStep(0))
    ensures Ready(s7, n, Got(0, ROOTDEV, n, true)) && s7.c.bufs[0].data == s5.disk[n] && s7.c.bufs[0].done
  {
    s6 := Complete(s5);
    assert Ready(s6, n, Wait(0, n, true)) && s6.c.bufs[0].done && s6.c.bufs[0].data == s5.disk[n];
    s7 := Step(s6, 0);
  }

  /** From the initial state any block of the disk can be read. */
  lemma {:induction false} AnyBlockCanBeRead(s0: Sys, n: int) returns (es: seq<Event>, s: Sys)
    requires Init(s0) && |s0.procs| > 0 && 0 <= n < |s0.disk|
    ensures Run(s0, es, s) && |s.procs| > 0 && s.procs[0] == Proc(Got(0, ROOTDEV, n, true), Awake)
    ensures s.c.Has(0) && s.c.bufs[0].data == s0.disk[n] && s.c.bufs[0].done && s.cur == 0
  {
    hide Run, Apply, Enabled;
    var s1, s2 := SearchFails(s0, n);
    var s3 := BufferIsTaken(s0, s2, n);
    var s4, s5 := RequestIsMade(s3, n);
    var s6, s7 := RequestIsServed(s5, n);
    Stays(s7);
    es := OneMore(s6, EvStep(0), s7, [], s7);
    es := OneMore(s5, EvComplete, s6, es, s7);
    es := OneMore(s4, EvStep(0), s5, es, s7);
    es := OneMore(s3, EvStep(0), s4, es, s7);
    es := OneMore(s2, EvStep(0), s3, es, s7);
    es := OneMore(s1, EvStep(0), s2, es, s7);
    es := OneMore(s0, EvCall(0, OpBread(n)), s1, es, s7);
    s := s7;
  }

  lemma {:induction false} OneMoreAtTheEnd(s: Sys, es: seq<Event>, t: Sys, e: Event)
    requires Run(s, es, t) && Enabled(t, e)
    ensures Run(s, es + [e], Apply(t, e))
    decreases |es|
  {
    hide Apply, Enabled;
    var more := es + [e];
    if es == [] {
      assert more[1..] == [];
    } else {
      assert more[1..] == es[1..] + [e];
      OneMoreAtTheEnd(Apply(s, es[0]), es[1..], t, e);
    }
  }

  /** Any block read, modified and then plainly released: the cache no longer agrees with the flat disk. */
  lemma {:induction false} ReleasedUnwritten(s0: Sys, n: int, data: Block) returns (es: seq<Event>, s: Sys)
    requires Init(s0) && |s0.procs| > 0 && 0 <= n < |s0.disk| && data != s0.disk[n]
    ensures Run(s0, es, s) && s.IsProc(0) && s.procs[0].code == Client && s.cur == NOBODY && s.U(0) == Held(0, true)
    ensures var t := Call(s, 0, OpBrelse(0)); !Coherent(t.c.bufs, t.use, t.disk, t.flat)
  {
    hide Run, Init, Inv, Coherent;
    var es1, s1 := AnyBlockCanBeRead(s0, n);
    BreadSeesTheFlatDisk(s0, es1, s1, 0);
    var s2 := Apply(s1, EvStep(0));
    OneMoreAtTheEnd(s0, es1, s1, EvStep(0));
    s := Apply(s2, EvCall(0, OpModify(0, data)));
    OneMoreAtTheEnd(s0, es1 + [EvStep(0)], s2, EvCall(0, OpModify(0, data)));
    es := es1 + [EvStep(0)] + [EvCall(0, OpModify(0, data))];
    Reachable(s0, es, s);
    assert s.c.B(0).data == data && s.c.B(0).done && s.flat == s1.flat && s.c.B(0).blkno == n;
    ReleaseMustBeClean(s, 0, 0);
  }
}
