/**
 Processes calling the cache while the disk completes requests. The kernel switches processes only
 in `Sleep`, so a process in the middle of a call keeps the processor; between any two of its steps
 the disk may interrupt. A step is at most one stretch with interrupts off, together with work on a
 buffer that nobody else can reach.
 */
module CacheRuns {
  import opened Sequences
  import opened Words
  import opened Cache

  const NOBODY := -1
  const MAX_ERRORS := 10

  /** What a buffer is being used for; `who` waits for the request, or is NOBODY if it is asynchronous. */
  datatype Use =
    | Idle
    | Held(p: int, dirty: bool)
    | Ordered(who: int, read: bool)
    | Queued(who: int, read: bool)

  /** What `GetBlk`'s caller does with the buffer: `first` is the block read before a read-ahead, or -1. */
  datatype Then = ToClient | ToBread | ToBreada(ra: int) | ToAhead(first: int, main: int)

  /** Where a process stands in the cache's code. */
  datatype Code =
    | Client
    | GetBlk(dev: int, blkno: int, then_: Then)
    | Take(b: int, blkno: int, then_: Then)
    | Pick(dev: int, blkno: int, then_: Then)
    | Obtained(b: int, dev: int, blkno: int, then_: Then)
    | Submit(b: int, next: Code)
    | Wait(b: int, blkno: int, reading: bool)
    | Wake(b: int, next: Code)
    | Link(b: int, next: Code)
    | Ahead(first: int, main: int, ra: int)
    | Finish(first: int, main: int)
    | Flush(dev: int)
    | Got(b: int, dev: int, blkno: int, reading: bool)

  datatype Chan = Awake | OnBuf(b: int) | OnFree

  datatype Proc = Proc(code: Code, chan: Chan)

  /** `flat` is what a disk without a cache would hold; `cur` is the process inside a call, or NOBODY. */
  datatype Sys = Sys(c: Cache, use: seq<Use>, disk: seq<Block>, flat: seq<Block>, procs: seq<Proc>, cur: int)
  {
    predicate IsProc(p: int) {
      0 <= p < |procs|
    }

    function Go(p: int, code: Code): Sys
      requires IsProc(p)
    {
      this.(procs := procs[p := Proc(code, Awake)], cur := if code == Client then NOBODY else p)
    }

    function Sleep(p: int, chan: Chan): Sys
      requires IsProc(p)
    {
      this.(procs := procs[p := procs[p].(chan := chan)], cur := NOBODY)
    }

    function Mark(b: int, u: Use): Sys {
      if 0 <= b < |use| then this.(use := use[b := u]) else this
    }

    /** Buffer `b` becomes `x`, used as `u`. */
    function Set(b: int, x: Buf, u: Use): Sys {
      this.(c := c.Put(b, x)).Mark(b, u)
    }

    function U(b: int): Use {
      if 0 <= b < |use| then use[b] else Idle
    }
  }

  function WakeUpAll(procs: seq<Proc>, chan: Chan): (r: seq<Proc>)
    ensures |r| == |procs|
    ensures forall i :: 0 <= i < |procs| ==> r[i] == if procs[i].chan == chan then procs[i].(chan := Awake) else procs[i]
  {
    seq(|procs|, i requires 0 <= i < |procs| => if procs[i].chan == chan then procs[i].(chan := Awake) else procs[i])
  }

  ghost predicate LeavesOthers(s: Sys, t: Sys, b: int) {
    forall x :: x != b ==> t.U(x) == s.U(x) && t.c.B(x) == s.c.B(x)
  }

  /** Of all buffers only `b` may have changed, and neither disk has. */
  ghost predicate TouchesOnly(s: Sys, t: Sys, b: int) {
    && t.flat == s.flat && t.disk == s.disk && s.c.queue <= t.c.queue <= s.c.queue + [b]
    && LeavesOthers(s, t, b)
  }

  /** The first half of `Brelse`: whoever waits for this buffer or for any is woken. */
  function WakeWaiters(s: Sys, b: int): (t: Sys)
    ensures TouchesOnly(s, t, -1) && |t.procs| == |s.procs|
  {
    var procs := if s.c.B(b).wanted then WakeUpAll(s.procs, OnBuf(b)) else s.procs;
    s.(procs := if s.c.wanted then WakeUpAll(procs, OnFree) else procs, c := s.c.(wanted := false))
  }

  // One step of a process inside a call.

  function StepGetBlk(s: Sys, p: int, dev: int, blkno: int, then_: Then): (t: Sys)
    requires s.IsProc(p)
    ensures TouchesOnly(s, t, if dev < 0 then -1 else s.c.InCore(blkno))
  {
    var b := if dev < 0 then -1 else s.c.InCore(blkno);
    if b >= 0 then
      if s.c.B(b).busy then s.(c := s.c.Put(b, s.c.B(b).(wanted := true))).Sleep(p, OnBuf(b))
      else s.Go(p, Take(b, blkno, then_))
    else if s.c.free == [] then s.(c := s.c.(wanted := true)).Sleep(p, OnFree)
    else s.Go(p, Pick(dev, blkno, then_))
  }

  /** The flags `Bwrite` leaves before it calls `Strategy`. */
  function ToWrite(x: Buf, async: bool): Buf {
    x.(read := false, done := false, delwri := false, async := async)
  }

  function StepTake(s: Sys, p: int, b: int, blkno: int, then_: Then): (t: Sys)
    requires s.IsProc(p)
    ensures TouchesOnly(s, t, b)
  {
    s.(c := s.c.NotAvail(b)).Mark(b, Held(p, false)).Go(p, Obtained(b, ROOTDEV, blkno, then_))
  }

  /** Takes the oldest free buffer; a delayed write in it is first sent to the disk, and the search starts over. */
  function StepPick(s: Sys, p: int, dev: int, blkno: int, then_: Then): (t: Sys)
    requires s.IsProc(p)
    ensures TouchesOnly(s, t, if s.c.free == [] then -1 else s.c.free[0])
  {
    if s.c.free == [] then s
    else
      var b := s.c.free[0];
      var c := s.c.NotAvail(b);
      if s.c.B(b).delwri then
        s.(c := c).Set(b, ToWrite(c.B(b), true), Ordered(NOBODY, false)).Go(p, Submit(b, GetBlk(dev, blkno, then_)))
      else
        s.(c := c.Relink(b, dev, blkno)).Mark(b, Held(p, false)).Go(p, Obtained(b, dev, blkno, then_))
  }

  function OrderRead(s: Sys, b: int, who: int): Sys {
    s.Set(b, s.c.B(b).(read := true, async := who == NOBODY), Ordered(who, true))
  }

  function StepObtained(s: Sys, p: int, b: int, dev: int, blkno: int, then_: Then): (t: Sys)
    requires s.IsProc(p)
    ensures TouchesOnly(s, t, b)
  {
    var done := s.c.B(b).done;
    match then_
    case ToClient => s.Go(p, Got(b, dev, blkno, false))
    case ToBread =>
      if done then s.Go(p, Got(b, dev, blkno, true)) else OrderRead(s, b, p).Go(p, Submit(b, Wait(b, blkno, true)))
    case ToBreada(ra) =>
      if done then s.Go(p, Ahead(b, blkno, ra)) else OrderRead(s, b, p).Go(p, Submit(b, Ahead(b, blkno, ra)))
    case ToAhead(first, main) =>
      if done then s.Go(p, Wake(b, Finish(first, main)))
      else OrderRead(s, b, NOBODY).Go(p, Submit(b, Finish(first, main)))
  }

  function StepSubmit(s: Sys, p: int, b: int, next: Code): (t: Sys)
    requires s.IsProc(p)
    ensures TouchesOnly(s, t, b)
  {
    var u := s.U(b);
    s.(c := s.c.Enqueue(b)).Mark(b, if u.Ordered? then Queued(u.who, u.read) else u).Go(p, next)
  }

  function StepWait(s: Sys, p: int, b: int, blkno: int, reading: bool): (t: Sys)
    requires s.IsProc(p)
    ensures TouchesOnly(s, t, b)
  {
    if !s.c.B(b).done then s.Sleep(p, OnBuf(b))
    else s.Go(p, if reading then Got(b, ROOTDEV, blkno, true) else Wake(b, Client))
  }

  function StepLink(s: Sys, p: int, b: int, next: Code): (t: Sys)
    requires s.IsProc(p)
    ensures TouchesOnly(s, t, b)
  {
    s.(c := s.c.Link(b)).Mark(b, Idle).Go(p, next)
  }

  function StepAhead(s: Sys, p: int, first: int, main: int, ra: int): (t: Sys)
    requires s.IsProc(p)
    ensures TouchesOnly(s, t, -1) && |t.procs| == |s.procs|
  {
    if ra != 0 && s.c.InCore(ra) < 0 then s.Go(p, GetBlk(ROOTDEV, ra, ToAhead(first, main)))
    else s.Go(p, Finish(first, main))
  }

  function StepFinish(s: Sys, p: int, first: int, main: int): (t: Sys)
    requires s.IsProc(p)
    ensures TouchesOnly(s, t, -1) && |t.procs| == |s.procs|
  {
    s.Go(p, if first < 0 then GetBlk(ROOTDEV, main, ToBread) else Wait(first, main, true))
  }

  function StepFlush(s: Sys, p: int, dev: int): (t: Sys)
    requires s.IsProc(p)
    ensures TouchesOnly(s, t, FirstDelayed(s.c.free, s.c.bufs, dev))
  {
    var b := FirstDelayed(s.c.free, s.c.bufs, dev);
    if b < 0 then s.Go(p, Client)
    else
      var c := s.c.NotAvail(b);
      s.(c := c).Set(b, ToWrite(c.B(b), true), Ordered(NOBODY, false)).Go(p, Submit(b, Flush(dev)))
  }

  function Step(s: Sys, p: int): Sys
    requires s.IsProc(p)
  {
    match s.procs[p].code
    case Client => s
    case GetBlk(dev, blkno, then_) => StepGetBlk(s, p, dev, blkno, then_)
    case Take(b, blkno, then_) => StepTake(s, p, b, blkno, then_)
    case Pick(dev, blkno, then_) => StepPick(s, p, dev, blkno, then_)
    case Obtained(b, dev, blkno, then_) => StepObtained(s, p, b, dev, blkno, then_)
    case Submit(b, next) => StepSubmit(s, p, b, next)
    case Wait(b, blkno, reading) => StepWait(s, p, b, blkno, reading)
    case Wake(b, next) => WakeWaiters(s, b).Go(p, Link(b, next))
    case Link(b, next) => StepLink(s, p, b, next)
    case Ahead(first, main, ra) => StepAhead(s, p, first, main, ra)
    case Finish(first, main) => StepFinish(s, p, first, main)
    case Flush(dev) => StepFlush(s, p, dev)
    case Got(_, _, _, _) => s.Go(p, Client)
  }

  // The calls a process can make. Only buffers it holds may be changed or given back.

  datatype Op =
    | OpGetBlk(dev: int, blkno: int)
    | OpBread(blkno: int)
    | OpBreada(blkno: int, ra: int)
    | OpModify(b: int, data: Block)
    | OpBrelse(b: int)
    | OpBwrite(b: int)
    | OpBawrite(b: int)
    | OpBdwrite(b: int)
    | OpBflush(dev: int)

  predicate MayCall(s: Sys, p: int, op: Op) {
    match op
    case OpGetBlk(dev, blkno) => dev < 0 || (dev == ROOTDEV && 0 <= blkno < |s.disk|)
    case OpBread(blkno) => 0 <= blkno < |s.disk|
    case OpBreada(blkno, ra) => 0 <= blkno < |s.disk| && 0 <= ra < |s.disk|
    case OpModify(b, _) => s.U(b).Held? && s.U(b).p == p
    // A modified buffer that holds a block's contents must be written, not just released.
    case OpBrelse(b) => s.U(b).Held? && s.U(b).p == p && (s.U(b).dirty ==> !s.c.B(b).done)
    case OpBwrite(b) => s.U(b).Held? && s.U(b).p == p && s.c.B(b).dev >= 0
    case OpBawrite(b) => s.U(b).Held? && s.U(b).p == p && s.c.B(b).dev >= 0
    case OpBdwrite(b) => s.U(b).Held? && s.U(b).p == p && s.c.B(b).dev >= 0
    case OpBflush(_) => true
  }

  /** What a write through the cache means: the block has the buffer's contents from now on. */
  function Written(s: Sys, b: int): Sys {
    var n := s.c.B(b).blkno;
    if 0 <= n < |s.flat| then s.(flat := s.flat[n := s.c.B(b).data]) else s
  }

  function Call(s: Sys, p: int, op: Op): Sys
    requires s.IsProc(p)
  {
    match op
    case OpGetBlk(dev, blkno) => s.Go(p, GetBlk(dev, blkno, ToClient))
    case OpBread(blkno) => s.Go(p, GetBlk(ROOTDEV, blkno, ToBread))
    case OpBreada(blkno, ra) =>
      if s.c.InCore(blkno) < 0 then s.Go(p, GetBlk(ROOTDEV, blkno, ToBreada(ra))) else s.Go(p, Finish(-1, blkno))
    case OpModify(b, data) => s.Set(b, s.c.B(b).(data := data), Held(p, true))
    case OpBrelse(b) => s.Mark(b, Held(p, false)).Go(p, Wake(b, Client))
    case OpBwrite(b) =>
      Written(s, b).Set(b, ToWrite(s.c.B(b), false), Ordered(p, false)).Go(p, Submit(b, Wait(b, -1, false)))
    case OpBawrite(b) =>
      Written(s, b).Set(b, ToWrite(s.c.B(b), true), Ordered(NOBODY, false)).Go(p, Submit(b, Client))
    case OpBdwrite(b) =>
      Written(s, b).Set(b, s.c.B(b).(delwri := true, done := true), Held(p, false)).Go(p, Wake(b, Client))
    case OpBflush(dev) => s.Go(p, Flush(dev))
  }

  // The disk.

  /** The transfer for the request at the head of the queue. */
  function Transfer(s: Sys): Sys {
    if s.c.queue == [] then s
    else
      var b := s.c.queue[0];
      var x := s.c.B(b);
      if !(0 <= x.blkno < |s.disk|) then s
      else if x.read then s.(c := s.c.Put(b, x.(data := s.disk[x.blkno])))
      else s.(disk := s.disk[x.blkno := x.data])
  }

  /** `IODone`: an asynchronous request's buffer is released, otherwise its process is woken. */
  function IODone(s: Sys, b: int): Sys {
    var x := s.c.B(b).(done := true);
    if x.async then
      var w := WakeWaiters(s.(c := s.c.Put(b, x)), b);
      w.(c := w.c.Link(b)).Mark(b, Idle)
    else
      var u := s.U(b);
      s.Set(b, x.(wanted := false), if u.Queued? then Held(u.who, false) else u)
       .(procs := WakeUpAll(s.procs, OnBuf(b)))
  }

  /** The completion interrupt without an error: transfer, dequeue, finish, start the next request. */
  function Complete(s: Sys): Sys {
    if s.c.queue == [] then s
    else
      var t := Transfer(s);
      IODone(t.(c := t.c.Dequeue()), s.c.queue[0])
  }

  /** An attempt that fails and is repeated: it may have left anything where it was writing. */
  function Retry(s: Sys, junk: Block): (t: Sys)
    ensures t.flat == s.flat && |t.disk| == |s.disk| && t.c.queue == s.c.queue
    ensures s.c.queue != [] ==> LeavesOthers(s, t, s.c.queue[0])
  {
    if s.c.queue == [] then s
    else
      var b := s.c.queue[0];
      var x := s.c.B(b);
      var t := s.(c := s.c.(errcnt := s.c.errcnt + 1));
      if !(0 <= x.blkno < |s.disk|) then t
      else if x.read then t.(c := t.c.Put(b, x.(data := junk)))
      else t.(disk := t.disk[x.blkno := junk])
  }

  datatype Event = EvCall(p: int, op: Op) | EvStep(p: int) | EvComplete | EvRetry(junk: Block)

  predicate Enabled(s: Sys, e: Event) {
    match e
    case EvCall(p, op) => s.IsProc(p) && s.cur == NOBODY && s.procs[p].code == Client && MayCall(s, p, op)
    case EvStep(p) =>
      s.IsProc(p) && s.procs[p].code != Client && s.procs[p].chan == Awake && (s.cur == p || s.cur == NOBODY)
    case EvComplete => s.c.queue != []
    case EvRetry(_) => s.c.queue != [] && s.c.errcnt < MAX_ERRORS
  }

  function Apply(s: Sys, e: Event): Sys
    requires Enabled(s, e)
  {
    match e
    case EvCall(p, op) => Call(s, p, op)
    case EvStep(p) => Step(s, p)
    case EvComplete => Complete(s)
    case EvRetry(junk) => Retry(s, junk)
  }

  /** After `Initialize`: nothing cached, every buffer free, no process in the cache. */
  ghost predicate Init(s: Sys) {
    && |s.c.bufs| == NBUF && |s.use| == NBUF && s.flat == s.disk
    && (forall b :: 0 <= b < NBUF ==> s.c.bufs[b] == Unused().(data := s.c.bufs[b].data) && s.use[b] == Idle)
    && s.c.ring == [] && s.c.nodev == Downward(NBUF) && s.c.free == Upward(NBUF)
    && !s.c.wanted && s.c.queue == [] && s.c.active == 0 && s.c.errcnt == 0
    && s.cur == NOBODY && forall p :: 0 <= p < |s.procs| ==> s.procs[p] == Proc(Client, Awake)
  }

  ghost predicate Run(s: Sys, es: seq<Event>, t: Sys)
    decreases |es|
  {
    if es == [] then t == s else Enabled(s, es[0]) && Run(Apply(s, es[0]), es[1..], t)
  }
}
