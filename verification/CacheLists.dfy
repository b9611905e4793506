/** No buffer drops out of sight, and the one to be used again is the one released longest ago. */
module CacheLists {
  import opened Sequences
  import opened Words
  import opened Cache
  import opened CacheRuns
  import opened CacheInvariant
  import opened CacheSteps
  import opened CacheEvents
  import opened CacheTheorems
  import opened CacheCalls

  // Orders are submitted.

  /** Whoever uses a buffer exists, and a request that has been ordered is just being submitted. */
  ghost predicate Placed(s: Sys) {
    forall b :: 0 <= b < |s.use| ==>
      match s.use[b]
      case Idle => true
      case Held(p, _) => s.IsProc(p)
      case Ordered(who, _) => (who == NOBODY || s.IsProc(who)) && s.IsProc(s.cur) && Submits(s.procs[s.cur].code, b)
      case Queued(who, _) => who == NOBODY || s.IsProc(who)
  }

  /** A step's new uses are the process's own or nobody's, and it orders only what it goes on to submit. */
  ghost predicate Orders(s: Sys, t: Sys, q: int)
    requires s.IsProc(q)
  {
    && |t.procs| == |s.procs| && |t.use| == |s.use|
    && forall b :: 0 <= b < |s.use| ==>
         if t.use[b] == s.use[b] then s.use[b].Ordered? ==> !Submits(s.procs[q].code, b)
         else
           match t.use[b]
           case Idle => true
           case Held(p, _) => p == q
           case Ordered(who, _) => (who == q || who == NOBODY) && t.cur == q && Submits(t.procs[q].code, b)
           case Queued(who, _) => s.use[b].Ordered? && who == s.use[b].who
  }

  lemma {:induction false} EarlyStepOrders(s: Sys, p: int)
    requires s.IsProc(p)
    requires var c := s.procs[p].code;
             c.Client? || c.GetBlk? || c.Take? || c.Wait? || c.Wake? || c.Link? || c.Ahead? || c.Finish?
    ensures Orders(s, Step(s, p), p)
  {
    hide Find, Without, WakeUpAll;
  }

  lemma {:induction false} LateStepOrders(s: Sys, p: int)
    requires s.IsProc(p)
    requires var c := s.procs[p].code; c.Submit? || c.Flush? || c.Got? || c.Pick?
    ensures Orders(s, Step(s, p), p)
  {
    hide Find, Without, FirstDelayed, StepObtained;
  }

  lemma {:induction false} ObtainedStepOrders(s: Sys, p: int)
    requires s.IsProc(p) && s.procs[p].code.Obtained?
    ensures Orders(s, Step(s, p), p)
  {
  }

  lemma {:induction false} StepPlaced(s: Sys, p: int)
    requires Placed(s) && Enabled(s, EvStep(p))
    ensures Placed(Step(s, p))
  {
    hide Step;
    var code := s.procs[p].code;
    if code.Obtained? {
      ObtainedStepOrders(s, p);
    } else if code.Submit? || code.Flush? || code.Got? || code.Pick? {
      LateStepOrders(s, p);
    } else {
      EarlyStepOrders(s, p);
    }
  }

  lemma {:induction false} CallPlaced(s: Sys, p: int, op: Op)
    requires Placed(s) && Inv(s) && Enabled(s, EvCall(p, op))
    ensures Placed(Call(s, p, op))
  {
    hide Inv, Find, ToWrite;
  }

  lemma {:induction false} DiskPlaced(s: Sys, e: Event)
    requires Placed(s) && Inv(s) && Enabled(s, e) && (e.EvComplete? || e.EvRetry?)
    ensures Placed(Apply(s, e))
  {
    hide Coherent, ListsOk, RingsOk, UniqueKeys, ProcsOk, WakeUpAll, Complete;
    HeadRequest(s);
    BlockInRange(s, s.c.queue[0]);
    if e.EvComplete? {
      CompleteParts(s);
    }
  }

  lemma {:induction false} EventPlaced(s: Sys, e: Event)
    requires Placed(s) && Inv(s) && Enabled(s, e)
    ensures Placed(Apply(s, e))
  {
    hide Placed, Inv, Step, Call, Complete, Retry, MayCall;
    match e
    case EvCall(p, op) => CallPlaced(s, p, op);
    case EvStep(p) => StepPlaced(s, p);
    case _ => DiskPlaced(s, e);
  }

  lemma {:induction false} RunPlaced(s: Sys, es: seq<Event>, t: Sys)
    requires Placed(s) && Inv(s) && Run(s, es, t)
    ensures Placed(t)
    decreases |es|
  {
    hide Placed, Inv, Apply, Enabled;
    if es != [] {
      EventPlaced(s, es[0]);
      EventKeeps(s, es[0]);
      RunPlaced(Apply(s, es[0]), es[1..], t);
    }
  }

  /**
   No buffer is forgotten: in every reachable state each one is free, or waits in the device's queue, or is
   about to be put there by the running process, or is held by a process whose program, or whose call, has it.
   */
  lemma {:induction false} NoBufferIsForgotten(s0: Sys, es: seq<Event>, s: Sys, b: int)
    requires Init(s0) && Run(s0, es, s) && s.c.Has(b)
    ensures match s.U(b)
            case Idle => b in s.c.free
            case Queued(_, _) => b in s.c.queue && s.c.active == 1
            case Ordered(_, _) => s.IsProc(s.cur) && Submits(s.procs[s.cur].code, b)
            case Held(p, _) => s.IsProc(p) && (b in InHand(s, p) || b in Working(s.procs[p].code))
  {
    hide Run, RingsOk, UniqueKeys, ProcsOk, Working;
    Reachable(s0, es, s);
    assert Placed(s0);
    assert Inv(s0) by {
      InitKeeps(s0);
    }
    RunPlaced(s0, es, s);
  }

  // The oldest free buffer is taken.

  predicate SameBlock(x: Buf, y: Buf) {
    x.dev == y.dev && x.blkno == y.blkno
  }

  /**
   A buffer leaves the free list from its place, or joins it at the end; only the first one, and only
   when it has nothing to be written, is given to another block.
   */
  ghost predicate Ages(s: Sys, t: Sys) {
    && (t.c.free == s.c.free || (exists b :: b in s.c.free && t.c.free == Without(s.c.free, b))
        || exists b :: b !in s.c.free && t.c.free == s.c.free + [b])
    && forall b :: SameBlock(t.c.B(b), s.c.B(b))
                   || (s.c.free != [] && b == s.c.free[0] && !s.c.B(b).delwri && b !in t.c.free)
  }

  lemma {:induction false} TakesAge(s: Sys, t: Sys, b: int)
    requires b in s.c.free && t.c.free == Without(s.c.free, b)
    requires forall x :: SameBlock(t.c.B(x), s.c.B(x)) || (x == b == s.c.free[0] && !s.c.B(x).delwri)
    ensures Ages(s, t)
  {
    hide Without;
  }

  lemma {:induction false} IdleIsFree(s: Sys, b: int)
    requires Sound(s) && s.c.Has(b) && s.U(b).Idle?
    ensures b in s.c.free
  {
  }

  lemma {:induction false} SameAge(s: Sys, t: Sys)
    requires t.c.free == s.c.free && forall b :: SameBlock(t.c.B(b), s.c.B(b))
    ensures Ages(s, t)
  {
  }

  lemma {:induction false} JoinsAge(s: Sys, t: Sys, b: int)
    requires b !in s.c.free && t.c.free == s.c.free + [b] && forall x :: SameBlock(t.c.B(x), s.c.B(x))
    ensures Ages(s, t)
  {
  }

  lemma {:induction false} TakeAges(s: Sys, p: int)
    requires Inv(s) && Enabled(s, EvStep(p)) && s.procs[p].code.Take?
    ensures Ages(s, Step(s, p))
  {
    hide Sound, ProcsOk, Find, Without, Ages, KeptOk, RequestOk;
    Enters(s, p);
    IdleIsFree(s, s.procs[p].code.b);
    TakesAge(s, Step(s, p), s.procs[p].code.b);
  }

  lemma {:induction false} PickAges(s: Sys, p: int)
    requires Inv(s) && Enabled(s, EvStep(p)) && s.procs[p].code.Pick?
    ensures Ages(s, Step(s, p))
  {
    hide Sound, ProcsOk, Find, Without, Ages, KeptOk, RequestOk;
    Enters(s, p);
    TakesAge(s, Step(s, p), s.c.free[0]);
  }

  lemma {:induction false} FlushAges(s: Sys, p: int)
    requires s.IsProc(p) && s.procs[p].code.Flush?
    ensures Ages(s, Step(s, p))
  {
    hide Without, FirstDelayed, Ages;
    var b := FirstDelayed(s.c.free, s.c.bufs, s.procs[p].code.dev);
    if b >= 0 {
      TakesAge(s, Step(s, p), b);
    } else {
      SameAge(s, Step(s, p));
    }
  }

  lemma {:induction false} LinkAges(s: Sys, p: int)
    requires Inv(s) && Enabled(s, EvStep(p)) && s.procs[p].code.Link?
    ensures Ages(s, Step(s, p))
  {
    hide Sound, ProcsOk, Ages, KeptOk, Resumable, NoSleepers;
    Enters(s, p);
    HeldFacts(s, s.procs[p].code.b);
    JoinsAge(s, Step(s, p), s.procs[p].code.b);
  }

  lemma {:induction false} OtherStepAges(s: Sys, p: int)
    requires s.IsProc(p)
    requires var c := s.procs[p].code; !c.Take? && !c.Pick? && !c.Flush? && !c.Link?
    ensures Ages(s, Step(s, p))
  {
    hide Find, WakeUpAll, Ages, StepTake, StepPick, StepFlush, StepLink, StepObtained;
    if s.procs[p].code.Obtained? {
      ObtainedAges(s, p);
    } else {
      SameAge(s, Step(s, p));
    }
  }

  lemma {:induction false} ObtainedAges(s: Sys, p: int)
    requires s.IsProc(p) && s.procs[p].code.Obtained?
    ensures Ages(s, Step(s, p))
  {
    hide Ages;
    SameAge(s, Step(s, p));
  }

  lemma {:induction false} CallAges(s: Sys, p: int, op: Op)
    requires s.IsProc(p)
    ensures Ages(s, Call(s, p, op))
  {
    hide Find, Ages, Written;
    if IsWrite(op) {
      WriteAges(s, p, op);
    } else {
      SameAge(s, Call(s, p, op));
    }
  }

  lemma {:induction false} WriteAges(s: Sys, p: int, op: Op)
    requires s.IsProc(p) && IsWrite(op)
    ensures Ages(s, Call(s, p, op))
  {
    hide Find, Ages;
    SameAge(s, Call(s, p, op));
  }

  lemma {:induction false} DiskAges(s: Sys, e: Event)
    requires Inv(s) && Enabled(s, e) && (e.EvComplete? || e.EvRetry?)
    ensures Ages(s, Apply(s, e))
  {
    hide Coherent, RingsOk, UniqueKeys, ProcsOk, WakeUpAll, Complete, Ages;
    HeadRequest(s);
    BlockInRange(s, s.c.queue[0]);
    if e.EvComplete? {
      CompleteParts(s);
      if s.c.bufs[s.c.queue[0]].async {
        JoinsAge(s, Apply(s, e), s.c.queue[0]);
      } else {
        SameAge(s, Apply(s, e));
      }
    } else {
      SameAge(s, Apply(s, e));
    }
  }

  /** The buffer given to another block is the free one that has been free longest, and is clean. */
  lemma {:induction false} OldestIsTaken(s0: Sys, es: seq<Event>, s: Sys, e: Event)
    requires Init(s0) && Run(s0, es, s) && Enabled(s, e)
    ensures Ages(s, Apply(s, e))
  {
    hide Run, Init, Inv, Ages, Step, Call, Complete, Retry, MayCall;
    Reachable(s0, es, s);
    match e
    case EvCall(p, op) => CallAges(s, p, op);
    case EvStep(p) =>
      match s.procs[p].code {
        case Take(_, _, _) => TakeAges(s, p);
        case Pick(_, _, _) => PickAges(s, p);
        case Flush(_) => FlushAges(s, p);
        case Link(_, _) => LinkAges(s, p);
        case _ => OtherStepAges(s, p);
      }
    case _ => DiskAges(s, e);
  }
}
