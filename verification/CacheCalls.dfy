/** What a call comes to, from where a process makes it to its return, whatever the others and the disk do meanwhile. */
module CacheCalls {
  import opened Sequences
  import opened Words
  import opened Cache
  import opened CacheRuns
  import opened CacheInvariant
  import opened CacheSteps
  import opened CacheEvents
  import opened CacheTheorems

  /** What a call hands to its caller: nothing, or a buffer for that block, `filled` with its contents or not. */
  datatype Promise = Nothing | Buffer(dev: int, blkno: int, filled: bool)

  function Asked(op: Op): Promise {
    match op
    case OpGetBlk(dev, blkno) => Buffer(dev, blkno, false)
    case OpBread(blkno) => Buffer(ROOTDEV, blkno, true)
    case OpBreada(blkno, _) => Buffer(ROOTDEV, blkno, true)
    case _ => Nothing
  }

  /** The buffer that a call takes out of its caller's hands, if any. */
  function Given(op: Op): set<int> {
    match op
    case OpBrelse(b) => {b}
    case OpBwrite(b) => {b}
    case OpBawrite(b) => {b}
    case OpBdwrite(b) => {b}
    case _ => {}
  }

  // What is still owed to the caller.

  function OwedBy(t: Then, dev: int, blkno: int): Promise {
    match t
    case ToClient => Buffer(dev, blkno, false)
    case ToAhead(_, main) => Buffer(ROOTDEV, main, true)
    case _ => Buffer(dev, blkno, true)
  }

  function Owed(code: Code): Promise {
    match code
    case Client => Nothing
    case GetBlk(dev, blkno, t) => OwedBy(t, dev, blkno)
    case Take(_, blkno, t) => OwedBy(t, ROOTDEV, blkno)
    case Pick(dev, blkno, t) => OwedBy(t, dev, blkno)
    case Obtained(_, dev, blkno, t) => OwedBy(t, dev, blkno)
    case Submit(_, next) => Owed(next)
    case Wait(_, blkno, reading) => if reading then Buffer(ROOTDEV, blkno, true) else Nothing
    case Wake(_, next) => Owed(next)
    case Link(_, next) => Owed(next)
    case Ahead(_, main, _) => Buffer(ROOTDEV, main, true)
    case Finish(_, main) => Buffer(ROOTDEV, main, true)
    case Flush(_) => Nothing
    case Got(_, dev, blkno, reading) => Buffer(dev, blkno, reading)
  }

  // What a process has in its hands.

  predicate Owns(u: Use, p: int) {
    match u
    case Idle => false
    case Held(q, _) => q == p
    case Ordered(who, _) => who == p
    case Queued(who, _) => who == p
  }

  function OnlyIf(b: int): set<int> {
    if b < 0 then {} else {b}
  }

  /** The buffers that a call at `code` is working on and will release, or hand over, itself. */
  function Working(code: Code): set<int> {
    match code
    case Submit(_, next) => Working(next)
    case Wake(b, next) => {b} + Working(next)
    case Link(b, next) => {b} + Working(next)
    case Obtained(b, _, _, t) => {b} + OnlyIf(ThenKeeps(t))
    case Got(b, _, _, _) => {b}
    case _ => OnlyIf(Kept(code))
  }

  /** The buffers that the process's program has obtained and not given back. */
  function InHand(s: Sys, p: int): set<int>
    requires s.IsProc(p)
  {
    set b | 0 <= b < |s.use| && Owns(s.use[b], p) && b !in Working(s.procs[p].code)
  }

  /**
   A step of `q` changes no other process's place or buffers. It brings `q` nearer to handing over just
   what it owes, and what the step obtains or gives up is what the call is working on.
   */
  ghost predicate Accounts(s: Sys, t: Sys, q: int)
    requires s.IsProc(q)
  {
    && |t.procs| == |s.procs| && |t.use| == |s.use| && t.procs[q] != s.procs[q]
    && (forall p :: s.IsProc(p) && p != q ==> t.procs[p].code == s.procs[p].code)
    && (forall b, p :: 0 <= b < |s.use| && 0 <= p != q ==> Owns(t.use[b], p) == Owns(s.use[b], p))
    && var code, next := s.procs[q].code, t.procs[q].code;
       if code.Got? then next == Client && t.use == s.use
       else
         && Owed(next) == Owed(code)
         && forall b :: 0 <= b < |s.use| ==>
              (Owns(t.use[b], q) && b !in Working(next) <==> Owns(s.use[b], q) && b !in Working(code))
  }

  lemma {:induction false} PassesOn(b: int, next: Code)
    ensures Owed(Submit(b, next)) == Owed(next) && Owed(Wake(b, next)) == Owed(next)
    ensures Working(Submit(b, next)) == Working(next) && Working(Wake(b, next)) == {b} + Working(next)
  {
  }

  lemma {:induction false} GetBlkAccounts(s: Sys, p: int)
    requires Inv(s) && Enabled(s, EvStep(p)) && s.procs[p].code.GetBlk?
    ensures var code := s.procs[p].code; Accounts(s, StepGetBlk(s, p, code.dev, code.blkno, code.then_), p)
  {
    hide Sound, Find, ProcsOk, KeptOk;
    Enters(s, p);
  }

  lemma {:induction false} TakeAccounts(s: Sys, p: int)
    requires Inv(s) && Enabled(s, EvStep(p)) && s.procs[p].code.Take?
    ensures var code := s.procs[p].code; Accounts(s, StepTake(s, p, code.b, code.blkno, code.then_), p)
  {
    hide Sound, Find, Without, ProcsOk;
    Enters(s, p);
  }

  lemma {:induction false} PickAccounts(s: Sys, p: int)
    requires Inv(s) && Enabled(s, EvStep(p)) && s.procs[p].code.Pick?
    ensures var code := s.procs[p].code; Accounts(s, StepPick(s, p, code.dev, code.blkno, code.then_), p)
  {
    hide Sound, Find, Without, ProcsOk;
    Enters(s, p);
    FreeIsIdle(s, s.c.free[0]);
    var code := s.procs[p].code;
    PassesOn(s.c.free[0], GetBlk(code.dev, code.blkno, code.then_));
  }

  /** A buffer obtained for a read that needs the disk. */
  lemma {:induction false} OrderAccounts(s: Sys, p: int, who: int, next: Code)
    requires Inv(s) && Enabled(s, EvStep(p)) && s.procs[p].code.Obtained? && next != Client
    requires Owed(next) == Owed(s.procs[p].code) && (who == p || who == NOBODY)
    requires var working := Working(s.procs[p].code);
             Working(next) == if who == p then working else working - {s.procs[p].code.b}
    ensures var b := s.procs[p].code.b; Accounts(s, OrderRead(s, b, who).Go(p, Submit(b, next)), p)
  {
    hide Sound, ProcsOk, RequestOk, KeptOk;
    Enters(s, p);
    PassesOn(s.procs[p].code.b, next);
  }

  lemma {:induction false} ObtainedAccounts(s: Sys, p: int)
    requires Inv(s) && Enabled(s, EvStep(p)) && s.procs[p].code.Obtained?
    ensures var code := s.procs[p].code; Accounts(s, StepObtained(s, p, code.b, code.dev, code.blkno, code.then_), p)
  {
    hide Sound, Find, ProcsOk, OrderRead, KeptOk;
    Enters(s, p);
    var code := s.procs[p].code;
    match code.then_
    case ToClient =>
    case ToBread => 
      if !s.c.B(code.b).done {
        OrderAccounts(s, p, p, Wait(code.b, code.blkno, true));
      }
    case ToBreada(ra) => 
      if !s.c.B(code.b).done {
        OrderAccounts(s, p, p, Ahead(code.b, code.blkno, ra));
      }
    case ToAhead(first, main) => 
      if !s.c.B(code.b).done {
        OrderAccounts(s, p, NOBODY, Finish(first, main));
      } else {
        PassesOn(code.b, Finish(first, main));
      }
  }

  lemma {:induction false} SubmitAccounts(s: Sys, p: int)
    requires Inv(s) && Enabled(s, EvStep(p)) && s.procs[p].code.Submit?
    ensures var code := s.procs[p].code; Accounts(s, StepSubmit(s, p, code.b, code.next), p)
  {
    hide Sound, ProcsOk;
    Enters(s, p);
  }

  lemma {:induction false} WaitAccounts(s: Sys, p: int)
    requires Inv(s) && Enabled(s, EvStep(p)) && s.procs[p].code.Wait?
    ensures var code := s.procs[p].code; Accounts(s, StepWait(s, p, code.b, code.blkno, code.reading), p)
  {
    hide Sound, ProcsOk;
    Enters(s, p);
    PassesOn(s.procs[p].code.b, Client);
  }

  lemma {:induction false} LinkAccounts(s: Sys, p: int)
    requires Inv(s) && Enabled(s, EvStep(p)) && s.procs[p].code.Link?
    ensures var code := s.procs[p].code; Accounts(s, StepLink(s, p, code.b, code.next), p)
  {
    hide Sound, ProcsOk;
    Enters(s, p);
  }

  lemma {:induction false} FlushAccounts(s: Sys, p: int)
    requires Inv(s) && Enabled(s, EvStep(p)) && s.procs[p].code.Flush?
    ensures Accounts(s, StepFlush(s, p, s.procs[p].code.dev), p)
  {
    hide Sound, ProcsOk, FirstDelayed, Without;
    Enters(s, p);
    var b := FirstDelayed(s.c.free, s.c.bufs, s.procs[p].code.dev);
    if b >= 0 {
      FreeIsIdle(s, b);
    }
  }

  lemma {:induction false} OtherStepsAccount(s: Sys, p: int)
    requires Inv(s) && Enabled(s, EvStep(p))
    requires s.procs[p].code.Wake? || s.procs[p].code.Ahead? || s.procs[p].code.Finish? || s.procs[p].code.Got?
    ensures Accounts(s, Step(s, p), p)
  {
    hide Sound, ProcsOk, Find, StepGetBlk, StepTake, StepPick, StepObtained, StepSubmit, StepWait, StepLink, StepFlush;
    Enters(s, p);
  }

  lemma {:induction false} StepAccounts(s: Sys, p: int)
    requires Inv(s) && Enabled(s, EvStep(p))
    ensures Accounts(s, Step(s, p), p)
  {
    hide Inv, Accounts, StepGetBlk, StepTake, StepPick, StepObtained, StepSubmit, StepWait, StepLink, StepFlush,
         StepAhead, StepFinish, WakeWaiters;
    match s.procs[p].code
    case GetBlk(_, _, _) => GetBlkAccounts(s, p);
    case Take(_, _, _) => TakeAccounts(s, p);
    case Pick(_, _, _) => PickAccounts(s, p);
    case Obtained(_, _, _, _) => ObtainedAccounts(s, p);
    case Submit(_, _) => SubmitAccounts(s, p);
    case Wait(_, _, _) => WaitAccounts(s, p);
    case Link(_, _) => LinkAccounts(s, p);
    case Flush(_) => FlushAccounts(s, p);
    case _ => OtherStepsAccount(s, p);
  }

  // Every event, as a process sees it.

  predicate NotCalledBy(es: seq<Event>, p: int) {
    forall i :: 0 <= i < |es| ==> !(es[i].EvCall? && es[i].p == p)
  }

  /** Between the events of `p` itself, its place in the code and its hands stay as they are. */
  ghost predicate Unaware(s: Sys, t: Sys, p: int)
    requires s.IsProc(p)
  {
    t.IsProc(p) && t.procs[p].code == s.procs[p].code && InHand(t, p) == InHand(s, p)
  }

  lemma {:induction false} SameOwner(s: Sys, t: Sys, p: int)
    requires s.IsProc(p) && t.IsProc(p) && t.procs[p].code == s.procs[p].code && |t.use| == |s.use|
    requires forall b :: 0 <= b < |s.use| ==> Owns(t.use[b], p) == Owns(s.use[b], p)
    ensures Unaware(s, t, p)
  {
    hide Owns, Working;
  }

  lemma {:induction false} OthersCallUnaware(s: Sys, q: int, op: Op, p: int)
    requires Inv(s) && Enabled(s, EvCall(q, op)) && s.IsProc(p) && p != q
    ensures Unaware(s, Call(s, q, op), p)
  {
    hide Sound, ProcsOk, Find, ToWrite, Unaware;
    SameOwner(s, Call(s, q, op), p);
  }

  lemma {:induction false} DiskUnaware(s: Sys, e: Event, p: int)
    requires Inv(s) && Enabled(s, e) && s.IsProc(p) && (e.EvComplete? || e.EvRetry?)
    ensures Unaware(s, Apply(s, e), p)
  {
    hide Coherent, ListsOk, RingsOk, UniqueKeys, ProcsOk, WakeUpAll, Finished, Unaware, Complete;
    HeadRequest(s);
    BlockInRange(s, s.c.queue[0]);
    if e.EvComplete? {
      CompleteParts(s);
    }
    SameOwner(s, Apply(s, e), p);
  }

  lemma {:induction false} OthersUnaware(s: Sys, e: Event, p: int)
    requires Inv(s) && Enabled(s, e) && s.IsProc(p) && (e.EvCall? || e.EvStep? ==> e.p != p)
    ensures Unaware(s, Apply(s, e), p)
  {
    hide Inv, Call, Step, Complete, Retry, Unaware, MayCall;
    match e
    case EvCall(q, op) => OthersCallUnaware(s, q, op, p);
    case EvStep(q) =>
      StepAccounts(s, q);
      SameOwner(s, Step(s, q), p);
    case _ => DiskUnaware(s, e, p);
  }

  /** A process's own step gets on: the process sleeps or goes elsewhere, and owes the same, or has handed it over. */
  lemma {:induction false} OwnStep(s: Sys, p: int)
    requires Inv(s) && Enabled(s, EvStep(p))
    ensures var t, code := Step(s, p), s.procs[p].code;
            && t.IsProc(p) && t.procs[p] != s.procs[p]
            && if code.Got? then t.procs[p].code == Client && InHand(t, p) == InHand(s, p) + {code.b}
               else Owed(t.procs[p].code) == Owed(code) && InHand(t, p) == InHand(s, p)
  {
    hide Sound, ProcsOk, Step, Owed;
    Enters(s, p);
    StepAccounts(s, p);
  }

  /** The caller's hands lose a buffer to the call, which works on it or sends it away. */
  lemma {:induction false} HandsLose(s: Sys, t: Sys, p: int, b: int)
    requires s.IsProc(p) && s.procs[p].code == Client && t.IsProc(p)
    requires 0 <= b < |s.use| == |t.use| && forall x :: 0 <= x < |s.use| && x != b ==> t.use[x] == s.use[x]
    requires Working(t.procs[p].code) == {b} || (Working(t.procs[p].code) == {} && !Owns(t.use[b], p))
    ensures InHand(t, p) == InHand(s, p) - {b}
  {
    hide Owns;
  }

  lemma {:induction false} SameHands(s: Sys, t: Sys, p: int)
    requires s.IsProc(p) && t.IsProc(p) && t.use == s.use && Working(t.procs[p].code) == Working(s.procs[p].code)
    ensures InHand(t, p) == InHand(s, p)
  {
    hide Owns;
  }

  lemma {:induction false} GivingCall(s: Sys, p: int, op: Op, b: int)
    requires Inv(s) && Enabled(s, EvCall(p, op)) && Given(op) == {b}
    ensures var t := Call(s, p, op);
            && t.IsProc(p) && Owed(t.procs[p].code) == Nothing && InHand(t, p) == InHand(s, p) - {b}
            && !t.procs[p].code.Got?
  {
    hide Sound, ProcsOk, Find, ToWrite, InHand;
    assert b in Given(op);
    PassesOn(b, Wait(b, -1, false));
    PassesOn(b, Client);
    HandsLose(s, Call(s, p, op), p, b);
  }

  lemma {:induction false} OwnCall(s: Sys, p: int, op: Op)
    requires Inv(s) && Enabled(s, EvCall(p, op))
    ensures var t := Call(s, p, op);
            && t.IsProc(p) && Owed(t.procs[p].code) == Asked(op) && InHand(t, p) == InHand(s, p) - Given(op)
            && !t.procs[p].code.Got?
  {
    hide Sound, ProcsOk, Find, ToWrite, InHand, Written;
    var t := Call(s, p, op);
    match op
    case OpBrelse(b) => GivingCall(s, p, op, b);
    case OpBwrite(b) => GivingCall(s, p, op, b);
    case OpBawrite(b) => GivingCall(s, p, op, b);
    case OpBdwrite(b) => GivingCall(s, p, op, b);
    case OpModify(_, _) => SameOwner(s, t, p);
    case _ => SameHands(s, t, p);
  }

  // One call.

  /** Buffer `b` is the process's, and is what was asked for. */
  ghost predicate HandedOver(s: Sys, p: int, asked: Promise, b: int) {
    && asked.Buffer? && s.U(b).Held? && s.U(b).p == p && s.c.B(b).Holds(asked.dev, asked.blkno)
    && (asked.filled ==>
          && asked.dev == ROOTDEV && s.c.B(b).done
          && 0 <= asked.blkno < |s.flat| && s.c.B(b).data == s.flat[asked.blkno])
  }

  /** The call of `op` has got somewhere, or has returned; at its start the caller had `hands`. */
  ghost predicate Under(s: Sys, p: int, op: Op, hands: set<int>) {
    && s.IsProc(p)
    && if s.procs[p].code == Client && Asked(op).Buffer? then
         exists b :: b !in hands && InHand(s, p) == hands + {b} && HandedOver(s, p, Asked(op), b)
       else (s.procs[p].code != Client ==> Owed(s.procs[p].code) == Asked(op)) && InHand(s, p) == hands - Given(op)
  }

  lemma {:induction false} StaysHandedOver(s: Sys, e: Event, p: int, asked: Promise, b: int)
    requires Inv(s) && Enabled(s, e) && HandedOver(s, p, asked, b) && (e.EvCall? || e.EvStep? ==> e.p != p)
    ensures HandedOver(Apply(s, e), p, asked, b)
  {
    hide Inv, Enabled, Apply;
    HeldIsUndisturbed(s, e, p, b);
  }

  lemma {:induction false} GotIsHandedOver(s: Sys, p: int)
    requires Inv(s) && Enabled(s, EvStep(p)) && s.procs[p].code.Got?
    ensures HandedOver(Step(s, p), p, Owed(s.procs[p].code), s.procs[p].code.b)
  {
    hide RingsOk, ListsOk, UniqueKeys, ProcsOk;
    Enters(s, p);
    var b := s.procs[p].code.b;
    assert BufOk(s.c.bufs[b], s.use[b]) && DataOk(s.c.bufs[b], s.use[b], s.disk, s.flat);
  }

  lemma {:induction false} OwnStepGoesOn(s: Sys, p: int, op: Op, hands: set<int>)
    requires Inv(s) && Enabled(s, EvStep(p)) && Under(s, p, op, hands)
    ensures Under(Step(s, p), p, op, hands)
  {
    hide Inv, Step, HandedOver, InHand;
    OwnStep(s, p);
    var code := s.procs[p].code;
    if code.Got? {
      GotIsHandedOver(s, p);
      NotInHand(s, p);
      assert Owed(code) == Asked(op);
    }
  }

  lemma {:induction false} NotInHand(s: Sys, p: int)
    requires s.IsProc(p) && s.procs[p].code.Got?
    ensures s.procs[p].code.b !in InHand(s, p)
  {
  }

  lemma {:induction false} GoesOn(s: Sys, e: Event, p: int, op: Op, hands: set<int>)
    requires Inv(s) && Enabled(s, e) && Under(s, p, op, hands) && !(e.EvCall? && e.p == p)
    ensures Under(Apply(s, e), p, op, hands)
  {
    hide Inv, HandedOver, InHand, MayCall, Complete, Retry, Call, Step;
    if e == EvStep(p) {
      OwnStepGoesOn(s, p, op, hands);
    } else {
      OthersUnaware(s, e, p);
      if s.procs[p].code == Client && Asked(op).Buffer? {
        var b :| b !in hands && InHand(s, p) == hands + {b} && HandedOver(s, p, Asked(op), b);
        StaysHandedOver(s, e, p, Asked(op), b);
      }
    }
  }

  lemma {:induction false} GoesOnAndOn(s: Sys, es: seq<Event>, t: Sys, p: int, op: Op, hands: set<int>)
    requires Inv(s) && Run(s, es, t) && Under(s, p, op, hands) && NotCalledBy(es, p)
    ensures Inv(t) && Under(t, p, op, hands)
    decreases |es|
  {
    hide Inv, Under, Enabled, Apply;
    if es != [] {
      GoesOn(s, es[0], p, op, hands);
      EventKeeps(s, es[0]);
      assert forall i :: 0 <= i < |es[1..]| ==> es[1..][i] == es[i + 1];
      GoesOnAndOn(Apply(s, es[0]), es[1..], t, p, op, hands);
    }
  }

  lemma {:induction false} CallIsUnder(s: Sys, p: int, op: Op)
    requires Inv(s) && Enabled(s, EvCall(p, op))
    ensures Under(Call(s, p, op), p, op, InHand(s, p))
  {
    hide Inv, Call, InHand, HandedOver, Enabled;
    OwnCall(s, p, op);
  }

  /**
   What is handed over is what was asked for: wherever the process comes to hand a buffer over before
   it makes another call, it is that of the call's block, filled just for `Bread` and `Breada`.
   */
  lemma {:induction false} HandsOverWhatWasAsked(s0: Sys, before: seq<Event>, s: Sys, p: int, op: Op,
                                                 es: seq<Event>, t: Sys)
    requires Init(s0) && Run(s0, before, s) && Enabled(s, EvCall(p, op))
    requires Run(Call(s, p, op), es, t) && NotCalledBy(es, p)
    ensures t.IsProc(p)
    ensures t.procs[p].code.Got? ==> var g := t.procs[p].code; Asked(op) == Buffer(g.dev, g.blkno, g.reading)
  {
    hide Run, Inv, Init, Call, InHand, HandedOver, MayCall;
    Reachable(s0, before, s);
    CallIsUnder(s, p, op);
    EventKeeps(s, EvCall(p, op));
    GoesOnAndOn(Call(s, p, op), es, t, p, op, InHand(s, p));
  }

  /**
   When a call has returned, the caller has in hand what it had before, without the buffer it gave, or
   with one more that holds the block asked for, with what a disk without a cache would hold in it. No
   buffer is lost.
   */
  lemma {:induction false} CallReturns(s0: Sys, before: seq<Event>, s: Sys, p: int, op: Op, es: seq<Event>, t: Sys)
    requires Init(s0) && Run(s0, before, s) && Enabled(s, EvCall(p, op))
    requires Run(Call(s, p, op), es, t) && NotCalledBy(es, p)
    requires t.IsProc(p) && t.procs[p].code == Client
    ensures if Asked(op).Buffer?
            then exists b :: b !in InHand(s, p) && InHand(t, p) == InHand(s, p) + {b} && HandedOver(t, p, Asked(op), b)
            else InHand(t, p) == InHand(s, p) - Given(op)
  {
    hide Run, Inv, Init, Call, InHand, HandedOver, MayCall;
    Reachable(s0, before, s);
    CallIsUnder(s, p, op);
    EventKeeps(s, EvCall(p, op));
    GoesOnAndOn(Call(s, p, op), es, t, p, op, InHand(s, p));
  }

  // A synchronous write.

  /** `p` waits for its write of buffer `b`, with `data`, to block `n`. */
  ghost predicate InWrite(s: Sys, p: int, b: int, n: int, data: Block) {
    && s.IsProc(p) && s.c.Has(b) && s.c.bufs[b].Holds(ROOTDEV, n) && s.c.bufs[b].data == data
    && ((s.procs[p].code == Submit(b, Wait(b, -1, false)) && s.U(b) == Ordered(p, false))
        || (s.procs[p].code == Wait(b, -1, false) && (s.U(b) == Queued(p, false) || s.U(b) == Held(p, false))))
  }

  /** A step of `q` leaves alone what another process owns, but may raise `B_WANTED` on it. */
  lemma {:induction false} StepLeavesOwned(s: Sys, q: int, p: int, b: int)
    requires Inv(s) && Enabled(s, EvStep(q)) && 0 <= p != q && Owns(s.U(b), p)
    ensures Step(s, q).U(b) == s.U(b)
    ensures Step(s, q).c.B(b) == s.c.B(b).(wanted := Step(s, q).c.B(b).wanted)
  {
    hide Sound, ProcsOk, Find, Without, Resumable, ThenOk, FirstDelayed, KeptBlock, Step;
    Enters(s, q);
    StepTouches(s, q);
    if s.procs[q].code.GetBlk? {
      GetBlkRaises(s, q, b);
    } else {
      NotTarget(s, q, p, b);
    }
  }

  lemma {:induction false} GetBlkRaises(s: Sys, q: int, b: int)
    requires s.IsProc(q) && s.procs[q].code.GetBlk?
    ensures Step(s, q).U(b) == s.U(b)
    ensures Step(s, q).c.B(b) == s.c.B(b).(wanted := Step(s, q).c.B(b).wanted)
  {
    hide Find;
  }

  lemma {:induction false} NotTarget(s: Sys, q: int, p: int, b: int)
    requires Inv(s) && Enabled(s, EvStep(q)) && 0 <= p != q && Owns(s.U(b), p) && !s.procs[q].code.GetBlk?
    ensures Target(s, q) != b
  {
    hide Coherent, RingsOk, UniqueKeys, ProcsOk, Distinct, Find, Without, Resumable, ThenOk, FirstDelayed, KeptBlock;
    Enters(s, q);
    if s.procs[q].code.Pick? {
      assert s.c.free[0] in s.c.free;
    }
  }

  lemma {:induction false} StepInWrite(s: Sys, p: int, b: int, n: int, data: Block)
    requires Inv(s) && Enabled(s, EvStep(p)) && InWrite(s, p, b, n, data)
    ensures InWrite(Step(s, p), p, b, n, data) || (s.c.B(b).done && s.procs[p].code.Wait?)
  {
    hide Sound, ProcsOk;
  }

  lemma {:induction false} DiskInWrite(s: Sys, e: Event, p: int, b: int, n: int, data: Block)
    requires Inv(s) && Enabled(s, e) && (e.EvComplete? || e.EvRetry?) && InWrite(s, p, b, n, data)
    ensures InWrite(Apply(s, e), p, b, n, data)
  {
    hide Coherent, ListsOk, RingsOk, UniqueKeys, ProcsOk, WakeUpAll, Complete;
    HeadRequest(s);
    BlockInRange(s, s.c.queue[0]);
    if e.EvComplete? {
      CompleteParts(s);
    }
  }

  /** Nor does another process's call touch it. */
  lemma {:induction false} CallLeavesOwned(s: Sys, q: int, op: Op, p: int, b: int)
    requires Enabled(s, EvCall(q, op)) && p != q && Owns(s.U(b), p)
    ensures Call(s, q, op).U(b) == s.U(b) && Call(s, q, op).c.B(b) == s.c.B(b)
  {
    hide Find, ToWrite, Written;
    if IsWrite(op) {
      WriteLeavesOwned(s, q, op, p, b);
    }
  }

  lemma {:induction false} WriteLeavesOwned(s: Sys, q: int, op: Op, p: int, b: int)
    requires Enabled(s, EvCall(q, op)) && p != q && Owns(s.U(b), p) && IsWrite(op)
    ensures Call(s, q, op).U(b) == s.U(b) && Call(s, q, op).c.B(b) == s.c.B(b)
  {
    hide Find, ToWrite;
  }

  lemma {:induction false} OthersInWrite(s: Sys, e: Event, p: int, b: int, n: int, data: Block)
    requires Inv(s) && Enabled(s, e) && (e.EvCall? || e.EvStep?) && e.p != p && InWrite(s, p, b, n, data)
    ensures InWrite(Apply(s, e), p, b, n, data)
  {
    hide Inv, MayCall, Step, Call, InHand;
    OthersUnaware(s, e, p);
    match e
    case EvStep(q) => StepLeavesOwned(s, q, p, b);
    case EvCall(q, op) => CallLeavesOwned(s, q, op, p, b);
  }

  lemma {:induction false} WriteGoesOn(s: Sys, e: Event, p: int, b: int, n: int, data: Block)
    requires Inv(s) && Enabled(s, e) && InWrite(s, p, b, n, data) && !(e.EvCall? && e.p == p)
    ensures InWrite(Apply(s, e), p, b, n, data) || (e == EvStep(p) && s.c.B(b).done && s.procs[p].code.Wait?)
  {
    hide Inv, InWrite, Call, Step, Complete, Retry, MayCall;
    if e.EvComplete? || e.EvRetry? {
      DiskInWrite(s, e, p, b, n, data);
    } else if e.EvStep? && e.p == p {
      StepInWrite(s, p, b, n, data);
    } else {
      OthersInWrite(s, e, p, b, n, data);
    }
  }

  /** When such a wait is over, the data is on the disk. */
  lemma {:induction false} WrittenWhenDone(s: Sys, p: int, b: int, n: int, data: Block)
    requires Inv(s) && InWrite(s, p, b, n, data) && s.c.B(b).done && s.procs[p].code.Wait?
    ensures 0 <= n < |s.disk| && s.disk[n] == data
  {
    hide RingsOk, ListsOk, UniqueKeys;
    assert if p == s.cur then Running(s, p) else Parked(s, p);
    assert BufOk(s.c.bufs[b], s.use[b]) && DataOk(s.c.bufs[b], s.use[b], s.disk, s.flat);
  }

  lemma {:induction false} WriteRun(s: Sys, es: seq<Event>, t: Sys, p: int, b: int, n: int, data: Block)
    returns (k: nat, u: Sys)
    requires Inv(s) && Run(s, es, t) && InWrite(s, p, b, n, data) && NotCalledBy(es, p)
    requires t.IsProc(p) && t.procs[p].code == Client
    ensures k <= |es| && Run(s, es[..k], u) && Run(u, es[k..], t)
    ensures 0 <= n < |u.disk| && u.disk[n] == data
    decreases |es|
  {
    hide Inv, Enabled, Apply;
    assert es != [];
    WriteGoesOn(s, es[0], p, b, n, data);
    var next := Apply(s, es[0]);
    if InWrite(next, p, b, n, data) {
      EventKeeps(s, es[0]);
      assert forall i :: 0 <= i < |es[1..]| ==> es[1..][i] == es[i + 1];
      k, u := WriteRun(next, es[1..], t, p, b, n, data);
      k := k + 1;
      assert es[..k][1..] == es[1..][..k - 1] && es[k..] == es[1..][k - 1..];
    } else {
      WrittenWhenDone(s, p, b, n, data);
      k, u := 0, s;
      assert es[..0] == [] && es[0..] == es;
    }
  }

  lemma {:induction false} WriteStarts(s: Sys, p: int, b: int)
    requires Inv(s) && Enabled(s, EvCall(p, OpBwrite(b)))
    ensures InWrite(Call(s, p, OpBwrite(b)), p, b, s.c.B(b).blkno, s.c.B(b).data)
  {
    hide RingsOk, ListsOk, UniqueKeys, ProcsOk;
    assert BufOk(s.c.bufs[b], s.use[b]) && DataOk(s.c.bufs[b], s.use[b], s.disk, s.flat);
  }

  /** A synchronous `Bwrite` does not return before the disk has held the buffer's contents. */
  lemma {:induction false} BwriteWaits(s0: Sys, before: seq<Event>, s: Sys, p: int, b: int, es: seq<Event>, t: Sys)
    returns (k: nat, u: Sys)
    requires Init(s0) && Run(s0, before, s) && Enabled(s, EvCall(p, OpBwrite(b)))
    requires Run(Call(s, p, OpBwrite(b)), es, t) && NotCalledBy(es, p) && t.IsProc(p) && t.procs[p].code == Client
    ensures k <= |es| && Run(Call(s, p, OpBwrite(b)), es[..k], u) && Run(u, es[k..], t)
    ensures 0 <= s.c.B(b).blkno < |u.disk| && u.disk[s.c.B(b).blkno] == s.c.B(b).data
  {
    hide Run, Inv, Init, Call, InWrite, MayCall;
    Reachable(s0, before, s);
    WriteStarts(s, p, b);
    EventKeeps(s, EvCall(p, OpBwrite(b)));
    k, u := WriteRun(Call(s, p, OpBwrite(b)), es, t, p, b, s.c.B(b).blkno, s.c.B(b).data);
  }

  // Reading ahead.

  function AheadOf(t: Then, blkno: int): int {
    match t
    case ToBreada(ra) => ra
    case ToAhead(_, _) => blkno
    case _ => 0
  }

  /** The block that the call has still to read ahead, 0 if none. */
  function StillAhead(code: Code): int {
    match code
    case GetBlk(_, blkno, t) => AheadOf(t, blkno)
    case Take(_, blkno, t) => AheadOf(t, blkno)
    case Pick(_, blkno, t) => AheadOf(t, blkno)
    case Obtained(_, _, blkno, t) => AheadOf(t, blkno)
    case Submit(_, next) => StillAhead(next)
    case Ahead(_, _, ra) => ra
    case _ => 0
  }

  /** In this step of `p` block `ra` is found to be cached, or has been brought in by somebody else, or is ordered. */
  predicate SeenTo(s: Sys, p: int, ra: int)
    requires s.IsProc(p)
  {
    match s.procs[p].code
    case Ahead(_, _, _) => s.c.InCore(ra) >= 0
    case Obtained(b, _, _, _) =>
      var t := Step(s, p);
      var ordered := t.U(b) == Ordered(NOBODY, true) && t.IsProc(p) && Submits(t.procs[p].code, b);
      t.c.B(b).Holds(ROOTDEV, ra) && (t.c.B(b).done || ordered)
    case _ => false
  }

  predicate Submits(code: Code, b: int) {
    code.Submit? && code.b == b
  }

  lemma {:induction false} ObtainedStepsAhead(s: Sys, p: int)
    requires Inv(s) && Enabled(s, EvStep(p)) && s.procs[p].code.Obtained? && StillAhead(s.procs[p].code) != 0
    ensures var t, ra := Step(s, p), StillAhead(s.procs[p].code);
            t.IsProc(p) && (StillAhead(t.procs[p].code) == ra || SeenTo(s, p, ra))
  {
    hide Sound, ProcsOk, Find, KeptOk;
    Enters(s, p);
  }

  lemma {:induction false} StepsAhead(s: Sys, p: int)
    requires Inv(s) && Enabled(s, EvStep(p)) && StillAhead(s.procs[p].code) != 0
    ensures var t, ra := Step(s, p), StillAhead(s.procs[p].code);
            t.IsProc(p) && (StillAhead(t.procs[p].code) == ra || SeenTo(s, p, ra))
  {
    hide Sound, ProcsOk, Find, Without, StepObtained;
    if s.procs[p].code.Obtained? {
      ObtainedStepsAhead(s, p);
    }
  }

  lemma {:induction false} AheadRun(s: Sys, es: seq<Event>, t: Sys, p: int, ra: int) returns (k: nat, u: Sys)
    requires Inv(s) && Run(s, es, t) && NotCalledBy(es, p) && s.IsProc(p) && StillAhead(s.procs[p].code) == ra != 0
    requires t.IsProc(p) && t.procs[p].code == Client
    ensures k < |es| && Run(s, es[..k], u) && Enabled(u, EvStep(p)) && es[k] == EvStep(p)
    ensures Run(Step(u, p), es[k + 1..], t)
    ensures SeenTo(u, p, ra)
    decreases |es|
  {
    hide Inv, Enabled, Step, StillAhead, SeenTo;
    assert es != [] by {
      assert StillAhead(Client) == 0 by { NothingAhead(); }
    }
    var next := Apply(s, es[0]);
    if es[0] == EvStep(p) {
      StepsAhead(s, p);
      OwnStep(s, p);
    } else {
      OthersUnaware(s, es[0], p);
    }
    if StillAhead(next.procs[p].code) == ra {
      EventKeeps(s, es[0]);
      assert forall i :: 0 <= i < |es[1..]| ==> es[1..][i] == es[i + 1];
      k, u := AheadRun(next, es[1..], t, p, ra);
      k := k + 1;
      assert es[..k][1..] == es[1..][..k - 1] && es[k + 1..] == es[1..][k..];
    } else {
      k, u := 0, s;
      assert es[..0] == [];
    }
  }

  lemma NothingAhead()
    ensures StillAhead(Client) == 0
  {
  }

  /** Unless its own block was cached already, `Breada` does not return before it has seen to the other one. */
  lemma {:induction false} BreadaReadsAhead(s0: Sys, before: seq<Event>, s: Sys, p: int, n: int, ra: int,
                                            es: seq<Event>, t: Sys)
    returns (k: nat, u: Sys)
    requires Init(s0) && Run(s0, before, s) && Enabled(s, EvCall(p, OpBreada(n, ra))) && s.c.InCore(n) < 0 && ra != 0
    requires Run(Call(s, p, OpBreada(n, ra)), es, t) && NotCalledBy(es, p) && t.IsProc(p) && t.procs[p].code == Client
    ensures k < |es| && Run(Call(s, p, OpBreada(n, ra)), es[..k], u)
    ensures Enabled(u, EvStep(p)) && es[k] == EvStep(p) && Run(Step(u, p), es[k + 1..], t) && SeenTo(u, p, ra)
  {
    hide Run, Inv, Init, SeenTo, Find;
    Reachable(s0, before, s);
    EventKeeps(s, EvCall(p, OpBreada(n, ra)));
    k, u := AheadRun(Call(s, p, OpBreada(n, ra)), es, t, p, ra);
  }
}
