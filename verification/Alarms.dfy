/**
 `sleep(seconds)` for many processes over one shared alarm time. The clock's second is put off while
 a process runs in the kernel, so that nothing happens between setting the alarm and falling asleep.
 A second is counted with interrupts off, but compared with the alarm with interrupts on again.
 */
module Alarms {
  const HZ := 120

  /** Where a process stands in `Sys_Sslep`: about to test its time, to set the alarm, to sleep; or asleep. */
  datatype Proc =
    | Elsewhere
    | Testing(wakeTime: int)
    | Setting(wakeTime: int)
    | Going(wakeTime: int)
    | Asleep(wakeTime: int)

  const NOBODY := -1

  /**
   `cur` is the process inside the loop, or NOBODY. `due` counts the clock interrupts that have counted
   a second and not yet compared it; `fromUser` tells that the outermost of them found a user program.
   */
  datatype State = State(lbolt: int, time: int, tout: int, procs: seq<Proc>, cur: int, due: nat, fromUser: bool) {
    predicate IsProc(p: int) {
      0 <= p < |procs|
    }

    function Set(p: int, x: Proc): State
      requires IsProc(p)
    {
      this.(procs := procs[p := x])
    }
  }

  function Woken(procs: seq<Proc>): (r: seq<Proc>)
    ensures |r| == |procs|
    ensures forall i :: 0 <= i < |procs| ==> r[i] == if procs[i].Asleep? then Testing(procs[i].wakeTime) else procs[i]
  {
    seq(|procs|, i requires 0 <= i < |procs| => if procs[i].Asleep? then Testing(procs[i].wakeTime) else procs[i])
  }

  /** A process's next step in the loop. */
  function Step(s: State, p: int): State
    requires s.IsProc(p)
  {
    match s.procs[p]
    case Elsewhere => s
    case Testing(w) => if w > s.time then s.Set(p, Setting(w)).(cur := p) else s.Set(p, Elsewhere).(cur := NOBODY)
    case Setting(w) => s.(tout := if s.tout <= s.time || s.tout > w then w else s.tout).Set(p, Going(w))
    case Going(w) => s.Set(p, Asleep(w)).(cur := NOBODY)
    case Asleep(_) => s
  }

  /** What the clock interrupts: a user program, a running process's kernel work, or the kernel with nothing to run. */
  datatype Found = UserMode | Busy | Idle

  predicate Counts(s: State, found: Found) {
    s.lbolt + 1 >= HZ && !found.Busy?
  }

  /** A clock interrupt, up to where interrupts are allowed again; every HZ of them make a second, unless put off. */
  function Ticked(s: State, found: Found): State {
    var t := s.(lbolt := s.lbolt + 1);
    if Counts(s, found) then
      t.(lbolt := t.lbolt - HZ, time := s.time + 1, due := s.due + 1,
         fromUser := if s.due == 0 then found.UserMode? else s.fromUser)
    else t
  }

  /** The rest of a clock interrupt that has counted a second. */
  function Compared(s: State): State
    requires s.due > 0
  {
    s.(due := s.due - 1, procs := if s.time == s.tout then Woken(s.procs) else s.procs)
  }

  datatype Event = Sleep(p: int, seconds: nat) | Go(p: int) | Interrupt(found: Found) | Compare | Signal(p: int)

  /** Within a clock interrupt no process runs, and what a nested interrupt finds is the kernel. */
  predicate Enabled(s: State, e: Event) {
    match e
    case Sleep(p, _) => s.IsProc(p) && s.procs[p] == Elsewhere && s.cur == NOBODY && s.due == 0
    case Go(p) =>
      s.IsProc(p) && s.procs[p] != Elsewhere && !s.procs[p].Asleep? && (s.cur == NOBODY || s.cur == p) && s.due == 0
    case Interrupt(found) =>
      (s.cur != NOBODY ==> found.Busy?) && (s.due > 0 ==> !found.UserMode? && (s.fromUser ==> found.Busy?))
    case Compare => s.due > 0
    case Signal(p) => s.IsProc(p) && (s.procs[p].Asleep? || s.procs[p].Testing?) && s.cur != p
  }

  function Apply(s: State, e: Event): State
    requires Enabled(s, e)
  {
    match e
    case Sleep(p, seconds) => s.Set(p, Testing(s.time + seconds))
    case Go(p) => Step(s, p)
    case Interrupt(found) => Ticked(s, found)
    case Compare => Compared(s)
    case Signal(p) => s.Set(p, Elsewhere)
  }

  predicate ProcOk(s: State, p: int)
    requires s.IsProc(p)
  {
    match s.procs[p]
    case Elsewhere => s.cur != p
    case Testing(_) => s.cur != p
    case Setting(w) => s.cur == p && w > s.time
    case Going(w) => s.cur == p && s.time < s.tout <= w
    case Asleep(w) => s.cur != p && s.tout <= w && (s.time < s.tout || (s.due > 0 && s.time == s.tout))
  }

  /** The alarm is still to come, or about to be noticed, and comes in time for everyone asleep. */
  ghost predicate Inv(s: State) {
    && s.lbolt >= 0 && (s.cur != NOBODY ==> s.due == 0)
    && forall p :: 0 <= p < |s.procs| ==> ProcOk(s, p)
  }

  predicate AnyAsleep(s: State) {
    exists p :: 0 <= p < |s.procs| && s.procs[p].Asleep?
  }

  /**
   A second second is counted before the first, which is the alarm's, has been compared. This takes an
   idle kernel and a backlog: `lbolt` must have HZ - 1 interrupts left over from the first.
   */
  predicate Misses(s: State, e: Event) {
    e == Interrupt(Idle) && s.due > 0 && s.lbolt >= HZ - 1 && s.time == s.tout && AnyAsleep(s)
  }

  /** The invariant survives an event if and only if the event does not make the clock miss the alarm. */
  lemma {:induction false} EventKeeps(s: State, e: Event)
    requires Inv(s) && Enabled(s, e)
    ensures Inv(Apply(s, e)) <==> !Misses(s, e)
  {
    var t := Apply(s, e);
    if Misses(s, e) {
      var p :| 0 <= p < |s.procs| && s.procs[p].Asleep?;
      assert !ProcOk(t, p);
    } else {
      forall p | 0 <= p < |t.procs| ensures ProcOk(t, p) {
        assert ProcOk(s, p);
        if e.Go? {
          assert ProcOk(s, e.p);
        }
      }
    }
  }

  /** Whether `prompt`, in a run in which no event misses the alarm. */
  ghost predicate Run(s: State, es: seq<Event>, t: State, prompt: bool)
    decreases |es|
  {
    if es == [] then t == s
    else Enabled(s, es[0]) && (prompt ==> !Misses(s, es[0])) && Run(Apply(s, es[0]), es[1..], t, prompt)
  }

  /** Nobody in the loop yet; the alarm may have any value. */
  predicate Init(s: State) {
    s.lbolt == 0 && s.cur == NOBODY && s.due == 0 && forall p :: 0 <= p < |s.procs| ==> s.procs[p] == Elsewhere
  }

  lemma {:induction false} RunKeeps(s: State, es: seq<Event>, t: State)
    requires Inv(s) && Run(s, es, t, true)
    ensures Inv(t)
    decreases |es|
  {
    hide Inv, Enabled, Apply, Misses;
    if es != [] {
      EventKeeps(s, es[0]);
      RunKeeps(Apply(s, es[0]), es[1..], t);
    }
  }

  /**
   The alarm lies ahead, no sleeper's time before it; between counting and comparing it may be just
   now. So once a second has been compared, nobody is asleep whose time has come.
   */
  lemma {:induction false} AlarmAhead(s0: State, es: seq<Event>, s: State, p: int)
    requires Init(s0) && Run(s0, es, s, true) && s.IsProc(p) && s.procs[p].Asleep?
    ensures s.time <= s.tout <= s.procs[p].wakeTime
    ensures s.due == 0 ==> s.time < s.tout
  {
    hide Run;
    RunKeeps(s0, es, s);
    assert ProcOk(s, p);
  }

  /** Unless a signal ends its sleep, a process leaves the loop only when its time has come. */
  lemma {:induction false} NeverEarly(s: State, e: Event, p: int)
    requires Enabled(s, e) && s.IsProc(p) && s.procs[p] != Elsewhere && Apply(s, e).procs[p] == Elsewhere
    requires e != Signal(p)
    ensures s.time >= s.procs[p].wakeTime
  {
  }

  // One call of `sleep`.

  /** Neither a new call of `p`'s nor a signal for it. */
  predicate Leaves(e: Event, p: int) {
    e != Signal(p) && !(e.Sleep? && e.p == p)
  }

  /** `p` is still in its call, with that wake time, or has left it since then. */
  predicate InCall(s: State, p: int, wakeTime: int) {
    s.IsProc(p) && if s.procs[p] == Elsewhere then wakeTime <= s.time else s.procs[p].wakeTime == wakeTime
  }

  lemma {:induction false} CallGoesOn(s: State, e: Event, p: int, wakeTime: int)
    requires InCall(s, p, wakeTime) && Enabled(s, e) && Leaves(e, p)
    ensures InCall(Apply(s, e), p, wakeTime)
  {
  }

  lemma {:induction false} CallRuns(s: State, p: int, wakeTime: int, es: seq<Event>, t: State, prompt: bool)
    requires InCall(s, p, wakeTime) && Run(s, es, t, prompt) && forall i :: 0 <= i < |es| ==> Leaves(es[i], p)
    ensures InCall(t, p, wakeTime)
    decreases |es|
  {
    hide InCall, Enabled, Apply, Misses, Leaves;
    if es != [] {
      assert Leaves(es[0], p);
      assert forall i :: 0 <= i < |es[1..]| ==> es[1..][i] == es[i + 1];
      CallGoesOn(s, es[0], p, wakeTime);
      CallRuns(Apply(s, es[0]), p, wakeTime, es[1..], t, prompt);
    }
  }

  /**
   `sleep(seconds)` returns, unless a signal ends it, when and not before that many seconds have passed:
   whenever the process is out of the call the time has come, and in a prompt run with nothing left to
   compare, it has not come while the process is asleep.
   */
  lemma {:induction false} SleepLasts(s0: State, before: seq<Event>, s: State, p: int, seconds: nat,
                                      es: seq<Event>, t: State, prompt: bool)
    requires Init(s0) && Run(s0, before, s, prompt) && Enabled(s, Sleep(p, seconds))
    requires Run(Apply(s, Sleep(p, seconds)), es, t, prompt) && forall i :: 0 <= i < |es| ==> Leaves(es[i], p)
    ensures t.IsProc(p)
    ensures t.procs[p] == Elsewhere ==> s.time + seconds <= t.time
    ensures prompt && t.procs[p].Asleep? && t.due == 0 ==> t.time < s.time + seconds
  {
    hide Run;
    CallRuns(Apply(s, Sleep(p, seconds)), p, s.time + seconds, es, t, prompt);
    if prompt {
      RunKeeps(s0, before, s);
      EventKeeps(s, Sleep(p, seconds));
      RunKeeps(Apply(s, Sleep(p, seconds)), es, t);
      assert ProcOk(t, p);
    }
  }

  function Interrupts(es: seq<Event>): nat {
    if es == [] then 0 else (if es[0].Interrupt? then 1 else 0) + Interrupts(es[1..])
  }

  /** Seconds put off are made up for: no clock interrupt is lost. */
  lemma {:induction false} NoTimeLost(s: State, es: seq<Event>, t: State, prompt: bool)
    requires Run(s, es, t, prompt)
    ensures HZ * t.time + t.lbolt == HZ * s.time + s.lbolt + Interrupts(es)
    decreases |es|
  {
    hide Enabled, Misses;
    if es != [] {
      OneEvent(s, es[0]);
      NoTimeLost(Apply(s, es[0]), es[1..], t, prompt);
    }
  }

  lemma {:induction false} OneEvent(s: State, e: Event)
    requires Enabled(s, e)
    ensures HZ * Apply(s, e).time + Apply(s, e).lbolt == HZ * s.time + s.lbolt + if e.Interrupt? then 1 else 0
  {
  }

  /** If no interrupt finds the kernel busy, no second is put off: the time is exact. */
  lemma {:induction false} TimeIsExact(s: State, es: seq<Event>, t: State, prompt: bool)
    requires 0 <= s.lbolt < HZ && Run(s, es, t, prompt) && Interrupt(Busy) !in es
    ensures 0 <= t.lbolt < HZ && t.time == s.time + (s.lbolt + Interrupts(es)) / HZ
    decreases |es|
  {
    NoTimeLost(s, es, t, prompt);
    NoBacklog(s, es, t, prompt);
  }

  lemma {:induction false} NoBacklog(s: State, es: seq<Event>, t: State, prompt: bool)
    requires 0 <= s.lbolt < HZ && Run(s, es, t, prompt) && Interrupt(Busy) !in es
    ensures 0 <= t.lbolt < HZ
    decreases |es|
  {
    hide Enabled, Misses;
    if es != [] {
      assert es[0] in es && Interrupt(Busy) !in es[1..];
      NotPutOff(s, es[0]);
      NoBacklog(Apply(s, es[0]), es[1..], t, prompt);
    }
  }

  lemma {:induction false} NotPutOff(s: State, e: Event)
    requires 0 <= s.lbolt < HZ && Enabled(s, e) && e != Interrupt(Busy)
    ensures 0 <= Apply(s, e).lbolt < HZ
  {
  }

  // The missed alarm.

  /**
   How long a second must have been put off for that: with `n` interrupts between counting the alarm's
   second and the interrupt that misses it, nearly two seconds less `n` interrupts.
   */
  lemma {:induction false} MissNeedsBacklog(s0: State, e0: Event, es: seq<Event>, s: State, e: Event)
    requires Enabled(s0, e0) && e0.Interrupt? && Counts(s0, e0.found)
    requires Run(Apply(s0, e0), es, s, false) && s.time == s0.time + 1 && Misses(s, e)
    ensures s0.lbolt + Interrupts(es) >= 2 * HZ - 2
  {
    hide Run;
    NoTimeLost(Apply(s0, e0), es, s, false);
  }

  predicate OfTheClock(e: Event) {
    e.Interrupt? || e.Compare?
  }

  /** The clock wakes nobody whose alarm has been missed, however long it runs. */
  lemma {:induction false} MissedIsLost(s: State, es: seq<Event>, t: State)
    requires s.tout < s.time && Run(s, es, t, false) && forall i :: 0 <= i < |es| ==> OfTheClock(es[i])
    ensures t.procs == s.procs && t.tout < t.time
    decreases |es|
  {
    if es != [] {
      assert OfTheClock(es[0]);
      forall i | 0 <= i < |es| - 1 ensures OfTheClock(es[1..][i]) {
        assert OfTheClock(es[i + 1]);
      }
      MissedIsLost(Apply(s, es[0]), es[1..], t);
    }
  }

  lemma {:induction false} Stays(s: State, prompt: bool)
    ensures Run(s, [], s, prompt)
  {
  }

  lemma {:induction false} Before(s: State, e: Event, next: State, es: seq<Event>, t: State, prompt: bool)
    returns (more: seq<Event>)
    requires Enabled(s, e) && (prompt ==> !Misses(s, e)) && Apply(s, e) == next && Run(next, es, t, prompt)
    ensures Run(s, more, t, prompt)
  {
    more := [e] + es;
    assert more[1..] == es;
  }

  /** A process stays at its kernel work for `n` interrupts. */
  lemma {:induction false} BusyFor(s: State, n: nat, es: seq<Event>, t: State) returns (more: seq<Event>)
    requires Run(s.(lbolt := s.lbolt + n), es, t, false)
    ensures Run(s, more, t, false)
    decreases n
  {
    if n == 0 {
      more := es;
    } else {
      var next := s.(lbolt := s.lbolt + 1);
      more := BusyFor(next, n - 1, es, t);
      more := Before(s, Interrupt(Busy), next, more, t, false);
    }
  }

  function One(lbolt: int, time: int, tout: int, x: Proc, cur: int, due: nat): State {
    State(lbolt, time, tout, [x], cur, due, false)
  }

  /** From the start to a process asleep for a second. */
  lemma {:induction false} FallsAsleep(es: seq<Event>, t: State, prompt: bool) returns (more: seq<Event>)
    requires Run(One(0, 0, 1, Asleep(1), NOBODY, 0), es, t, prompt)
    ensures Run(One(0, 0, 0, Elsewhere, NOBODY, 0), more, t, prompt)
  {
    hide Run;
    var s1, s2, s3 := One(0, 0, 0, Testing(1), NOBODY, 0), One(0, 0, 0, Setting(1), 0, 0), One(0, 0, 1, Going(1), 0, 0);
    more := Before(s3, Go(0), One(0, 0, 1, Asleep(1), NOBODY, 0), es, t, prompt);
    more := Before(s2, Go(0), s3, more, t, prompt);
    more := Before(s1, Go(0), s2, more, t, prompt);
    more := Before(One(0, 0, 0, Elsewhere, NOBODY, 0), Sleep(0, 1), s1, more, t, prompt);
  }

  /** Two interrupts of the idle kernel, the second before the first has compared. */
  lemma {:induction false} SecondMissed(s: State) returns (es: seq<Event>)
    requires s == One(0, 2, 1, Asleep(1), NOBODY, 0)
    ensures Run(One(2 * HZ - 2, 0, 1, Asleep(1), NOBODY, 0), es, s, false)
  {
    hide Run;
    var once, twice := One(HZ - 1, 1, 1, Asleep(1), NOBODY, 1), One(0, 2, 1, Asleep(1), NOBODY, 2);
    var last := One(0, 2, 1, Asleep(1), NOBODY, 1);
    Stays(s, false);
    es := Before(last, Compare, s, [], s, false);
    es := Before(twice, Compare, last, es, s, false);
    es := Before(once, Interrupt(Idle), twice, es, s, false);
    es := Before(One(2 * HZ - 2, 0, 1, Asleep(1), NOBODY, 0), Interrupt(Idle), once, es, s, false);
  }

  /**
   Such a run: `sleep(1)`, nearly two seconds of kernel work, and those two interrupts. The sleeper's time
   has passed, and so has the alarm.
   */
  lemma {:induction false} AlarmMissed() returns (s0: State, es: seq<Event>, s: State)
    ensures Init(s0) && Run(s0, es, s, false)
    ensures s.procs == [Asleep(1)] && s.due == 0 && s.tout == 1 && s.time == 2
  {
    hide Run;
    s0, s := One(0, 0, 0, Elsewhere, NOBODY, 0), One(0, 2, 1, Asleep(1), NOBODY, 0);
    es := SecondMissed(s);
    es := BusyFor(One(0, 0, 1, Asleep(1), NOBODY, 0), 2 * HZ - 2, es, s);
    es := FallsAsleep(es, s, false);
  }

  // Setting the time.

  /** Setting the time of day by hand is safe exactly while the alarm stays ahead, or nobody is asleep. */
  lemma {:induction false} SettingTheTime(s: State, now: int)
    requires Inv(s) && s.cur == NOBODY && s.due == 0
    ensures Inv(s.(time := now)) <==> now < s.tout || !AnyAsleep(s)
  {
    var t := s.(time := now);
    if now < s.tout || !AnyAsleep(s) {
      forall p | 0 <= p < |t.procs| ensures ProcOk(t, p) {
        assert ProcOk(s, p);
      }
    } else {
      var p :| 0 <= p < |s.procs| && s.procs[p].Asleep?;
      assert !ProcOk(t, p);
    }
  }

  /** The clock put forward past the alarm: the sleeper is not woken by any number of clock interrupts. */
  lemma {:induction false} TimePutForward(es: seq<Event>, t: State) returns (s0: State, before: seq<Event>, s: State)
    ensures Init(s0) && Run(s0, before, s, true) && s.procs == [Asleep(1)] && s.cur == NOBODY && s.due == 0
    ensures Run(s.(time := 7), es, t, false) && (forall i :: 0 <= i < |es| ==> OfTheClock(es[i])) ==> t.procs == [Asleep(1)]
  {
    s0 := One(0, 0, 0, Elsewhere, NOBODY, 0);
    s := One(0, 0, 1, Asleep(1), NOBODY, 0);
    Stays(s, true);
    before := FallsAsleep([], s, true);
    if Run(s.(time := 7), es, t, false) && forall i :: 0 <= i < |es| ==> OfTheClock(es[i]) {
      MissedIsLost(s.(time := 7), es, t);
    }
  }

  /** The kernel's variables. */
  class Time {
    var lbolt: int
    var time: int
    var tout: int
    const procs: array<Proc>
    ghost var cur: int
    ghost var due: nat
    ghost var fromUser: bool

    ghost function Abs(): State
      reads this, procs
    {
      State(lbolt, time, tout, procs[..], cur, due, fromUser)
    }

    method WakeUpAll()
      modifies procs
      ensures procs[..] == Woken(old(procs[..]))
    {
      ghost var was := procs[..];
      for i := 0 to procs.Length
        invariant forall x :: 0 <= x < i ==> procs[x] == Woken(was)[x]
        invariant forall x :: i <= x < procs.Length ==> procs[x] == was[x]
      {
        if procs[i].Asleep? {
          procs[i] := Testing(procs[i].wakeTime);
        }
      }
    }

    /**
     The clock's interrupt handler as long as interrupts are off. `running` and `userMode` are what it
     finds: whether the current process is runnable, and whether its program was interrupted.
     */
    method Clock(running: bool, userMode: bool) returns (counted: bool)
      modifies this`lbolt, this`time, this`due, this`fromUser
      ensures var found := if userMode then UserMode else if running then Busy else Idle;
        Abs() == Ticked(old(Abs()), found) && counted == Counts(old(Abs()), found)
    {
      lbolt := lbolt + 1;
      if lbolt < HZ {
        return false;
      }
      if running && !userMode {
        return false;
      }
      lbolt := lbolt - HZ;
      time := time + 1;
      fromUser := if due == 0 then userMode else fromUser;
      due := due + 1;
      counted := true;
    }

    /** What it does about the alarm with interrupts on, after a second was counted. */
    method CompareWithAlarm()
      requires due > 0
      modifies this`due, procs
      ensures Abs() == Compared(old(Abs()))
    {
      if time == tout {
        WakeUpAll();
      }
      due := due - 1;
    }

    /** The start of `Sys_Sslep`. */
    method SslepStart(p: int, seconds: nat) returns (wakeTime: int)
      requires 0 <= p < procs.Length && procs[p] == Elsewhere && cur == NOBODY && due == 0
      modifies procs
      ensures wakeTime == time + seconds && procs[p] == Testing(wakeTime)
      ensures Abs() == Apply(old(Abs()), Sleep(p, seconds))
    {
      wakeTime := time + seconds;
      procs[p] := Testing(wakeTime);
    }

    /** One turn of the loop in `Sys_Sslep`, up to the sleep; `done` if the time has come. */
    method SslepTurn(p: int, wakeTime: int) returns (done: bool)
      requires 0 <= p < procs.Length && procs[p] == Testing(wakeTime) && cur == NOBODY
      modifies this`tout, this`cur, procs
      ensures done <==> wakeTime <= time
      ensures done ==> Abs() == Step(old(Abs()), p)
      ensures !done ==> Abs() == Step(Step(Step(old(Abs()), p), p), p)
    {
      ghost var s := Abs();
      if wakeTime > time {
        procs[p] := Setting(wakeTime);
        cur := p;
        assert Abs() == Step(s, p);
        if tout <= time || tout > wakeTime {
          tout := wakeTime;
        }
        procs[p] := Going(wakeTime);
        assert Abs() == Step(Step(s, p), p);
        procs[p] := Asleep(wakeTime);
        cur := NOBODY;
        return false;
      }
      procs[p] := Elsewhere;
      cur := NOBODY;
      done := true;
    }
  }
}
