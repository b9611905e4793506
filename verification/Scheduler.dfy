/** Choosing the next process, and why nobody of the best priority waits long. */
module Scheduler {
  const NPROC := 100
  const PUSER := 100

  /** What `Select` looks at: whether a process could run, being ready and in memory, and its priority. */
  datatype View = View(ready: seq<bool>, pri: seq<int>) {
    predicate Ok() {
      |ready| == |pri| == NPROC && forall i :: 0 <= i < NPROC ==> pri[i] < 256
    }

    predicate Ready(i: int) {
      0 <= i < |ready| && ready[i]
    }
  }

  /** How far `i` is from the process after `last`, going round. */
  function Distance(last: int, i: int): (d: int)
    requires 0 <= last < NPROC && 0 <= i < NPROC
    ensures 0 <= d < NPROC
  {
    (i - last - 1 + NPROC) % NPROC
  }

  /** `i` is at least as urgent as every process that could run. */
  ghost predicate Best(v: View, i: int) {
    v.Ok() && v.Ready(i) && forall j :: v.Ready(j) ==> v.pri[i] <= v.pri[j]
  }

  /** The first of the most urgent processes, counting from the one after `last`. */
  ghost predicate Choice(v: View, last: int, i: int) {
    && 0 <= last < NPROC && Best(v, i)
    && forall j :: Best(v, j) ==> Distance(last, i) <= Distance(last, j)
  }

  class ProcessManager {
    const p_stat: array<bool>
    const p_flag: array<bool>
    const p_pri: array<int>
    var lastSelect: int
    var CurPri: int
    var RunRun: int

    ghost function Seen(): View
      reads p_stat, p_flag, p_pri
    {
      if p_stat.Length == p_flag.Length == p_pri.Length == NPROC then
        View(seq(NPROC, i requires 0 <= i < NPROC reads p_stat, p_flag => p_stat[i] && p_flag[i]), p_pri[..])
      else View([], [])
    }

    /** One round over the process table; -1 if nothing can run, after which `Select` waits and tries again. */
    method Select() returns (best: int)
      requires Seen().Ok() && 0 <= lastSelect < NPROC
      modifies this
      ensures RunRun == 0
      ensures best == -1 ==> lastSelect == old(lastSelect) && forall j :: !Seen().Ready(j)
      ensures best != -1 ==> Choice(Seen(), old(lastSelect), best) && lastSelect == best && CurPri == Seen().pri[best]
    {
      var priority := 256;
      best := -1;
      RunRun := 0;
      ghost var v, last := Seen(), lastSelect;
      for count := 0 to NPROC
        invariant lastSelect == last && RunRun == 0
        invariant best == -1 ==> priority == 256 && forall j :: v.Ready(j) ==> Distance(last, j) >= count
        invariant best != -1 ==> v.Ready(best) && priority == v.pri[best] && Distance(last, best) < count
        invariant forall j :: v.Ready(j) && Distance(last, j) < count ==>
                    best != -1 && priority <= v.pri[j]
                    && (v.pri[j] == priority ==> Distance(last, best) <= Distance(last, j))
      {
        var i := (lastSelect + 1 + count) % NPROC;
        AtDistance(last, count);
        if p_stat[i] && p_flag[i] {
          if p_pri[i] < priority {
            best := i;
            priority := p_pri[i];
          }
        }
      }
      if best != -1 {
        CurPri := priority;
        lastSelect := best;
      }
    }

    /** The priority of a user process, which stays below what `Select` starts from. */
    method SetPri(i: int, p_cpu: int, p_nice: int)
      requires p_pri.Length == NPROC && 0 <= i < NPROC && 0 <= p_cpu
      modifies this`RunRun, p_pri
      ensures p_pri[i] <= 255 && p_pri[i] <= PUSER + p_nice + p_cpu / 16
      ensures PUSER + p_nice + p_cpu / 16 <= 255 ==> p_pri[i] == PUSER + p_nice + p_cpu / 16
      ensures p_pri[i] > CurPri <==> RunRun == old(RunRun) + 1
      ensures RunRun == old(RunRun) || RunRun == old(RunRun) + 1
      ensures forall j :: 0 <= j < NPROC && j != i ==> p_pri[j] == old(p_pri[j])
    {
      var priority := p_cpu / 16;
      priority := priority + PUSER + p_nice;
      if priority > 255 {
        priority := 255;
      }
      if priority > CurPri {
        RunRun := RunRun + 1;
      }
      p_pri[i] := priority;
    }
  }

  lemma {:induction false} AtDistance(last: int, count: int)
    requires 0 <= last < NPROC && 0 <= count < NPROC
    ensures var i := (last + 1 + count) % NPROC;
            0 <= i < NPROC && forall j :: 0 <= j < NPROC ==> (Distance(last, j) == count <==> j == i)
  {
  }

  // Bounded waiting.

  /** Choosing somebody else brings `i` closer. */
  lemma {:induction false} Closer(v: View, last: int, pick: int, i: int)
    requires Choice(v, last, pick) && Best(v, i) && pick != i
    ensures Distance(pick, i) < Distance(last, i)
  {
  }

  /** A series of choices, the state of the table changing at will in between. */
  ghost predicate Choices(views: seq<View>, last: int, picks: seq<int>)
    decreases |picks|
  {
    |picks| == |views| &&
      (picks == [] || (Choice(views[0], last, picks[0]) && Choices(views[1..], picks[0], picks[1..])))
  }

  lemma {:induction false} ChosenBefore(views: seq<View>, last: int, picks: seq<int>, i: int)
    requires Choices(views, last, picks) && 0 <= last < NPROC && 0 <= i < NPROC
    requires forall k :: 0 <= k < |views| ==> Best(views[k], i)
    requires |picks| > Distance(last, i)
    ensures exists k :: 0 <= k <= Distance(last, i) && picks[k] == i
    decreases |picks|
  {
    hide Distance, Best, Choice;
    if picks[0] != i {
      var d := Distance(last, i);
      assert Best(views[0], i);
      Closer(views[0], last, picks[0], i);
      ChoiceInTable(views[0], last, picks[0]);
      ChosenBefore(views[1..], picks[0], picks[1..], i);
      var k :| 0 <= k <= Distance(picks[0], i) && picks[1..][k] == i;
      assert picks[k + 1] == i && k + 1 <= d;
    }
  }

  lemma {:induction false} ChoiceInTable(v: View, last: int, i: int)
    requires Choice(v, last, i)
    ensures 0 <= i < NPROC
  {
  }

  /** A process that stays ready and most urgent is chosen within as many selections as there are processes. */
  lemma {:induction false} BoundedWaiting(views: seq<View>, last: int, picks: seq<int>, i: int)
    requires Choices(views, last, picks) && 0 <= last < NPROC && 0 <= i < NPROC && |picks| >= NPROC
    requires forall k :: 0 <= k < |views| ==> Best(views[k], i)
    ensures i in picks[..NPROC]
  {
    ChosenBefore(views, last, picks, i);
    var k :| 0 <= k <= Distance(last, i) && picks[k] == i;
    assert picks[..NPROC][k] == i;
  }
}
