/** Where the target stops again after it was told to go on, and when it goes on unasked. */
module RangeSteps {
  import opened Words
  import opened Breakpoints

  /** A breakpoint is set at `a` but its byte has been taken out. */
  predicate TakenOut(s: Dbg, a: int)
    requires s.Find(a) != NONE ==> 0 <= s.Find(a) < |s.table|
  {
    s.Find(a) != NONE && !s.table[s.Find(a)].inserted
  }

  /** What runs freely into `a` traps there. */
  predicate Traps(s: Dbg, a: int) {
    s.InMemory(a) && s.mem[a] == INT3
  }

  lemma {:induction false} ArmTraps(s: Dbg, code: seq<byte>)
    requires Inv(s, code) && s.active
    ensures var t := Arm(s, s.end);
            Traps(t, s.end) <==> !TakenOut(s, s.end) || code[s.end] == INT3
  {
    hide FindIn, EntryOk;
    assert s.mem[s.end] == Byte(s, code, s.end);
  }

  lemma {:induction false} ClearedTable(s: Dbg)
    ensures ClearRange(s).table == s.table && ClearRange(s).count == s.count
  {
  }

  /**
   A range step replaces the one before. From a call at its start the target runs freely, and stops at the
   range's end unless a breakpoint set there has been taken out; otherwise it is stepped, with no INT3 of its own.
   */
  lemma {:induction false} RangeStepStops(s: Dbg, code: seq<byte>, pc: int, start: int, end: int)
    requires Inv(s, code) && start < end && s.InMemory(end)
    ensures var t := Apply(s, StepRange(pc, start, end));
            && t.active && t.start == start && t.end == end && !t.autoContinue && t.pending == s.pending
            && if pc == start && IsCall(ClearRange(s).mem, pc) then
                 Traps(t, end) <==> !TakenOut(s, end) || code[end] == INT3
               else !t.armed && t.mem == ClearRange(s).mem
  {
    hide FindIn, EntryOk, IsCall, Arm, ClearRange, TableOk;
    ClearKeeps(s, code);
    ClearedTable(s);
    Cleared(s);
    var t := ClearRange(s).(active := true, start := start, end := end);
    RangeKeeps(ClearRange(s), code, start, end);
    ArmTraps(t, code);
    ArmChanges(t, end);
  }

  lemma {:induction false} Cleared(s: Dbg)
    ensures var t := ClearRange(s); !t.active && !t.armed && t.pending == s.pending && |t.mem| == |s.mem|
  {
  }

  lemma {:induction false} RangeKeeps(s: Dbg, code: seq<byte>, start: int, end: int)
    requires Inv(s, code) && !s.armed && s.InMemory(end)
    ensures Inv(s.(active := true, start := start, end := end), code)
  {
    hide FindIn, EntryOk;
    var t := s.(active := true, start := start, end := end);
    assert forall a :: 0 <= a < |code| ==> Byte(t, code, a) == Byte(s, code, a);
  }

  lemma {:induction false} ArmChanges(s: Dbg, a: int)
    requires s.InMemory(a)
    ensures var t := Arm(s, a);
            t.active == s.active && t.start == s.start && t.end == s.end && t.pending == s.pending
            && t.autoContinue == s.autoContinue && t.table == s.table && t.count == s.count && |t.mem| == |s.mem|
  {
    hide FindIn;
  }

  lemma {:induction false} Finished(s: Dbg, code: seq<byte>)
    requires Inv(s, code)
    ensures var t := FinishResume(s);
            && Inv(t, code) && t.pending == NONE && t.active == s.active && t.start == s.start && t.end == s.end
            && t.armed == s.armed && t.tmpAddr == s.tmpAddr
            && |t.table| == |s.table| && t.count == s.count && (s.pending != NONE ==> t.table[s.pending].inserted)
            && (Live(s) ==> forall a :: !TakenOut(t, a))
  {
    hide FindIn, EntryOk, Overlay;
    FinishKeeps(s, code);
    var t := FinishResume(s);
    if Live(s) {
      forall a ensures !TakenOut(t, a) {
        assert t.Find(a) != NONE ==> Matches(t.table[t.Find(a)], a);
      }
    }
  }

  /**
   A single step within the range goes on unasked: over a call freely, up to a trap at the range's end, and
   otherwise with another step. A step out of the range ends it.
   */
  lemma {:induction false} StepInRange(s: Dbg, code: seq<byte>, pc: int)
    requires Inv(s, code) && s.active
    ensures var t := DebugTrap(s, pc);
            if s.start <= pc < s.end then
              && RunsOn(s, pc) && t.active && t.start == s.start && t.end == s.end
              && if IsCall(FinishResume(s).mem, pc) then Live(s) ==> Traps(t, s.end) else t == FinishResume(s)
            else !t.active && !t.armed && (RunsOn(s, pc) <==> s.pending != NONE && s.autoContinue)
  {
    hide FindIn, EntryOk, IsCall, Arm, ClearRange, TableOk, FinishResume, Overlay;
    Finished(s, code);
    var t := FinishResume(s);
    InRangeOfMemory(t, code);
    ArmTraps(t, code);
    ArmChanges(t, t.end);
    Cleared(t);
  }

  lemma {:induction false} InRangeOfMemory(s: Dbg, code: seq<byte>)
    requires Inv(s, code) && s.active
    ensures s.InMemory(s.end)
  {
    hide FindIn, EntryOk;
  }

  /**
   The temporary breakpoint's trap takes it away and leaves the range to be ended by the step; a trap on one
   of the table's ends the range, and has it stepped over next. Either way the instruction there is the
   target's own again. Any other trap changes nothing.
   */
  lemma {:induction false} TrapStops(s: Dbg, code: seq<byte>, eip: int)
    requires Inv(s, code) && eip != 0
    ensures var t, a := BreakpointTrap(s, eip), eip - 1;
            if s.HasTemporary(a) then
              && t.active && !t.armed && t.start == s.start && t.end == s.end == a && t.table == s.table
              && s.InMemory(a) && t.InMemory(a) && t.mem[a] == code[a]
            else if s.Find(a) != NONE then
              && !t.active && !t.armed && t.pending == s.Find(a) && !t.autoContinue
              && s.InMemory(a) && t.InMemory(a) && t.mem[a] == code[a]
            else t == s
  {
    hide FindIn, ClearRange, Consume, PrepareResume, Overlay;
    if s.HasTemporary(eip - 1) {
      Consumed(s, code);
    } else if s.Find(eip - 1) != NONE {
      Prepared(s, code, eip - 1);
    }
  }

  lemma {:induction false} Consumed(s: Dbg, code: seq<byte>)
    requires Inv(s, code) && s.armed
    ensures var t := Consume(s, s.tmpAddr);
            && t.active && !t.armed && t.start == s.start && t.end == s.end == s.tmpAddr && t.table == s.table
            && s.InMemory(s.end) && t.InMemory(s.end) && t.mem[s.end] == code[s.end]
  {
    hide FindIn, EntryOk;
  }

  lemma {:induction false} Prepared(s: Dbg, code: seq<byte>, a: int)
    requires Inv(s, code) && s.Find(a) != NONE && !s.HasTemporary(a)
    ensures var t := ClearRange(PrepareResume(s, a));
            && !t.active && !t.armed && t.pending == s.Find(a) && !t.autoContinue
            && s.InMemory(a) && t.InMemory(a) && t.mem[a] == code[a]
  {
    hide FindIn, Overlay;
    PrepareKeeps(s, code, a);
    var u := PrepareResume(s, a);
    ClearKeeps(u, code);
    var t := ClearRange(u);
    assert EntryOk(s.table, s.count, code, s.Find(a));
    var x := s.table[s.Find(a)];
    SameFind(s.table, s.count, s.Find(a), x.(inserted := false), a);
    ClearedTable(u);
    OwnByte(t, code, a);
  }

  /** Taking a breakpoint's byte out does not change where it is found. */
  lemma {:induction false} SameFind(t: seq<Bp>, n: int, k: int, x: Bp, a: int)
    requires 0 <= k < |t| && x.addr == t[k].addr && x.enabled == t[k].enabled
    ensures FindIn(t[k := x], n, a) == FindIn(t, n, a)
    decreases n
  {
    if n > 0 {
      SameFind(t, n - 1, k, x, a);
    }
  }

  lemma {:induction false} OwnByte(s: Dbg, code: seq<byte>, a: int)
    requires Inv(s, code) && 0 <= a < |code| && !s.armed && TakenOut(s, a)
    ensures s.InMemory(a) && s.mem[a] == code[a]
  {
    hide FindIn, EntryOk;
    assert s.mem[a] == Byte(s, code, a);
  }

  /**
   `continue` from a breakpoint steps over it and then goes on unasked, with the breakpoint back in its place;
   a single step asked for is reported.
   */
  lemma {:induction false} ContinuesOverBreakpoint(s: Dbg, code: seq<byte>, pc: int)
    requires Inv(s, code)
    ensures var t := Apply(s, Continue);
            && !t.active && !t.armed && t.pending == s.pending && (RunsOn(t, pc) <==> s.pending != NONE)
            && var u := DebugTrap(t, pc);
               && u.pending == NONE && !RunsOn(u, pc)
               && (s.pending != NONE ==> u.IsEntry(s.pending) && u.table[s.pending].inserted)
    ensures !RunsOn(Apply(s, StepOne), pc)
  {
    hide FindIn, EntryOk, Overlay, ClearRange, FinishResume;
    ClearKeeps(s, code);
    ClearedTable(s);
    Cleared(s);
    if s.active {
      InRangeOfMemory(s, code);
    }
    var t := Apply(s, Continue);
    EventKeeps(s, code, Continue);
    Finished(t, code);
  }

  lemma {:induction false} FirstEnabled(s: Dbg, n: nat)
    requires n <= s.count <= |s.table|
    ensures forall i :: 0 <= i < |s.table| ==>
              EnableFirst(s, n).table[i] == if i < n then OffZero(s.table[i], true) else s.table[i]
  {
    if n > 0 {
      FirstEnabled(s, n - 1);
    }
  }

  lemma {:induction false} FirstDisabled(s: Dbg, n: nat)
    requires n <= s.count <= |s.table|
    ensures forall i :: 0 <= i < |s.table| ==>
              DisableFirst(s, n).table[i] == if i < n then OffZero(s.table[i], false) else s.table[i]
  {
    if n > 0 {
      FirstDisabled(s, n - 1);
    }
  }

  function OffZero(x: Bp, inserted: bool): Bp {
    if x.enabled && x.addr != 0 then x.(inserted := inserted) else x
  }

  /** Enabling puts every breakpoint set into memory, disabling takes every one out, but for address 0. */
  lemma {:induction false} EnableAndDisable(s: Dbg, code: seq<byte>)
    requires Inv(s, code)
    ensures var t, u := Apply(s, EnableAll), Apply(s, DisableAll);
            && Inv(t, code) && Inv(u, code)
            && forall i :: 0 <= i < |s.table| ==>
                 t.table[i] == OffZero(s.table[i], true) && u.table[i] == OffZero(s.table[i], false)
  {
    hide FindIn, Overlay, RangeOk, EnableFirst, DisableFirst;
    EventKeeps(s, code, EnableAll);
    EventKeeps(s, code, DisableAll);
    FirstEnabled(s, s.count);
    FirstDisabled(s, s.count);
    forall i | 0 <= i < |s.table| ensures s.table[i].enabled ==> i < s.count {
      assert EntryOk(s.table, s.count, code, i);
    }
  }
}
