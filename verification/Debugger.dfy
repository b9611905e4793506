/**
 The debugger stub's breakpoint table and range step, as the code changes them in place. Each operation
 brings about the state that the function of the same name in module Breakpoints describes.
 */
module Debuggers {
  import opened Words
  import opened Breakpoints

  class Debugger {
    const mem: array<byte>
    const table: array<Bp>
    var count: int
    var pending: int
    var autoContinue: bool
    var active: bool
    var start: int
    var end: int
    var armed: bool
    var tmpAddr: int
    var tmpOrig: byte
    /** The trap flag that the target will be resumed with. */
    var singleStep: bool

    ghost predicate Valid()
      reads this
    {
      && table.Length == MAX_BREAKPOINTS && 0 <= count <= table.Length
      && (pending == NONE || 0 <= pending < count)
    }

    ghost function Abs(): Dbg
      reads this, mem, table
    {
      Dbg(mem[..], table[..], count, pending, autoContinue, active, start, end, armed, tmpAddr, tmpOrig)
    }

    /** The addresses written through are addresses of memory. */
    ghost predicate AddressesOk()
      reads this, mem, table
    {
      && (forall i :: 0 <= i < table.Length && (table[i].enabled || table[i].inserted) ==> 0 <= table[i].addr < mem.Length)
      && (armed ==> 0 <= tmpAddr < mem.Length)
      && (active ==> 0 <= end < mem.Length)
    }

    constructor (memory: array<byte>)
      ensures Valid() && AddressesOk() && mem == memory && fresh(table)
      ensures Abs() == Initial(memory[..])
    {
      mem := memory;
      table := new Bp[MAX_BREAKPOINTS](_ => Unused());
      count, pending, autoContinue := 0, NONE, false;
      active, start, end := false, 0, 0;
      armed, tmpAddr, tmpOrig := false, 0, 0;
      singleStep := false;
    }

    method FindBreakpoint(a: int) returns (i: int)
      requires Valid()
      ensures i == Abs().Find(a)
    {
      i := 0;
      while i < count
        invariant 0 <= i <= count
        invariant FindIn(table[..], i, a) == NONE
      {
        if table[i].addr == a && table[i].enabled {
          FoundAt(table[..], i, count, a);
          return;
        }
        i := i + 1;
      }
      i := NONE;
    }

    method InsertBreakpoint(i: int)
      requires Valid() && AddressesOk() && 0 <= i < count
      modifies mem, table
      ensures Valid() && AddressesOk() && Abs() == old(Abs()).Insert(i)
    {
      if !table[i].enabled || table[i].inserted {
        return;
      }
      mem[table[i].addr] := INT3;
      table[i] := table[i].(inserted := true);
    }

    method RestoreBreakpointByte(i: int)
      requires Valid() && AddressesOk() && 0 <= i < count
      modifies mem, table
      ensures Valid() && AddressesOk() && Abs() == old(Abs()).Restore(i)
    {
      if !table[i].inserted {
        return;
      }
      mem[table[i].addr] := table[i].orig;
      table[i] := table[i].(inserted := false);
    }

    /** The first of the entries ever used that is out of use now. */
    method FindUnused() returns (slot: int)
      requires Valid()
      ensures slot == FirstUnused(table[..], count)
    {
      slot := 0;
      while slot < count
        invariant 0 <= slot <= count
        invariant FirstUnused(table[..], slot) == NONE
      {
        if !table[slot].enabled {
          UnusedAt(table[..], slot, count);
          return;
        }
        slot := slot + 1;
      }
      slot := NONE;
    }

    method NewSlot() returns (slot: int)
      requires Valid() && AddressesOk() && count < MAX_BREAKPOINTS
      modifies this`count
      ensures Valid() && AddressesOk() && slot == old(count) && Abs() == old(Abs()).(count := slot + 1)
    {
      slot := count;
      count := count + 1;
    }

    method FillSlot(slot: int, a: int)
      requires Valid() && AddressesOk() && 0 <= a < mem.Length && 0 <= slot < count
      modifies mem, table
      ensures Valid() && AddressesOk() && Abs() == old(Abs()).Set(slot, Bp(a, old(mem[a]), true, false)).Insert(slot)
    {
      table[slot] := Bp(a, mem[a], true, false);
      InsertBreakpoint(slot);
    }

    /** Answers 0 also where there is a breakpoint already, -2 for a watchpoint and -1 when the table is full. */
    method AddBreakpoint(a: int, kind: int) returns (r: int)
      requires Valid() && AddressesOk() && 0 <= a < mem.Length
      modifies this`count, mem, table
      ensures Valid() && AddressesOk()
      ensures Abs() == if Supported(kind) then Add(old(Abs()), a) else old(Abs())
      ensures r == if old(Abs()).Find(a) != NONE then 0 else if !Supported(kind) then -2 else if Full(old(Abs())) then -1 else 0
    {
      hide FindIn, FirstUnused, Dbg.Insert, Dbg.Poke;
      var found := FindBreakpoint(a);
      if found != NONE {
        return 0;
      }
      if kind != 0 && kind != 1 {
        return -2;
      }
      var slot := FindUnused();
      if slot == NONE {
        if count >= MAX_BREAKPOINTS {
          return -1;
        }
        slot := NewSlot();
      }
      FillSlot(slot, a);
      r := 0;
    }

    /** The entry is put out of use, whether or not its byte had to be put back. */
    method DropEntry(i: int)
      requires Valid() && AddressesOk() && 0 <= i < count
      modifies this`pending, this`autoContinue, mem, table
      ensures Valid() && AddressesOk() && Abs() == Drop(old(Abs()), i)
    {
      RestoreBreakpointByte(i);
      table[i] := table[i].(enabled := false);
      table[i] := table[i].(inserted := false);
      if pending == i {
        pending, autoContinue := NONE, false;
      }
    }

    method RemoveBreakpoint(a: int) returns (r: int)
      requires Valid() && AddressesOk()
      modifies this`pending, this`autoContinue, mem, table
      ensures Valid() && AddressesOk() && Abs() == Remove(old(Abs()), a)
      ensures r == if old(Abs()).Find(a) != NONE then 0 else -1
    {
      hide Drop;
      var i := 0;
      while i < count
        invariant 0 <= i <= count && Valid() && AddressesOk() && Abs() == old(Abs())
        invariant FindIn(table[..], i, a) == NONE
      {
        if table[i].addr == a && table[i].enabled {
          FoundAt(table[..], i, count, a);
          DropEntry(i);
          return 0;
        }
        i := i + 1;
      }
      r := -1;
    }

    method EnableBreakpoints()
      requires Valid() && AddressesOk()
      modifies mem, table
      ensures Valid() && AddressesOk() && Abs() == Apply(old(Abs()), EnableAll)
    {
      var i := 0;
      while i < count
        invariant 0 <= i <= count && Valid() && AddressesOk()
        invariant Abs() == EnableFirst(old(Abs()), i)
      {
        if table[i].enabled && table[i].addr != 0 {
          InsertBreakpoint(i);
        }
        i := i + 1;
      }
    }

    method DisableBreakpoints()
      requires Valid() && AddressesOk()
      modifies mem, table
      ensures Valid() && AddressesOk() && Abs() == Apply(old(Abs()), DisableAll)
    {
      var i := 0;
      while i < count
        invariant 0 <= i <= count && Valid() && AddressesOk()
        invariant Abs() == DisableFirst(old(Abs()), i)
      {
        if table[i].enabled && table[i].addr != 0 {
          RestoreBreakpointByte(i);
        }
        i := i + 1;
      }
    }

    method PrepareBreakpointResume(a: int) returns (r: int)
      requires Valid() && AddressesOk()
      modifies this`pending, this`autoContinue, mem, table
      ensures Valid() && AddressesOk() && Abs() == PrepareResume(old(Abs()), a)
      ensures r == if old(Abs()).Find(a) != NONE then 0 else -1
    {
      hide FindIn;
      var i := FindBreakpoint(a);
      if i == NONE {
        return -1;
      }
      RestoreBreakpointByte(i);
      pending, autoContinue := i, false;
      r := 0;
    }

    method FinishBreakpointResume() returns (r: int)
      requires Valid() && AddressesOk()
      modifies this`pending, this`autoContinue, mem, table
      ensures Valid() && AddressesOk() && Abs() == FinishResume(old(Abs()))
      ensures r == if old(pending) != NONE then 0 else -1
    {
      if pending == NONE {
        return -1;
      }
      InsertBreakpoint(pending);
      pending, autoContinue := NONE, false;
      r := 0;
    }

    method ClearRangeStep()
      requires Valid() && AddressesOk()
      modifies this`active, this`start, this`end, this`armed, this`tmpAddr, this`tmpOrig, mem
      ensures Valid() && AddressesOk() && Abs() == ClearRange(old(Abs()))
    {
      if armed {
        mem[tmpAddr] := tmpOrig;
      }
      active, start, end := false, 0, 0;
      armed, tmpAddr, tmpOrig := false, 0, 0;
    }

    method IsCallInstruction(pc: int) returns (b: bool)
      requires 0 <= pc < mem.Length
      ensures b == IsCall(mem[..], pc)
    {
      if pc == 0 {
        return false;
      }
      if mem[pc] == 0xE8 || mem[pc] == 0x9A {
        return true;
      }
      if mem[pc] == 0xFF && pc + 1 < mem.Length {
        var reg := mem[pc + 1] as int / 8 % 8;
        if reg == 2 || reg == 3 {
          return true;
        }
      }
      b := false;
    }

    method ArmRangeStepBreakpoint(a: int)
      requires Valid() && AddressesOk() && 0 <= a < mem.Length
      modifies this`armed, this`tmpAddr, this`tmpOrig, mem
      ensures Valid() && AddressesOk() && Abs() == Arm(old(Abs()), a)
    {
      hide FindIn;
      var i := FindBreakpoint(a);
      if i != NONE {
        return;
      }
      if armed && tmpAddr == a {
        return;
      }
      tmpAddr, tmpOrig := a, mem[a];
      mem[a] := INT3;
      armed := true;
    }

    /** Answers whether the range may be run through at full speed. */
    method ActivateRangeStep(pc: int, from: int, until: int) returns (go: bool)
      requires Valid() && AddressesOk() && 0 <= pc < mem.Length && 0 <= until < mem.Length
      modifies this`active, this`start, this`end, this`armed, this`tmpAddr, this`tmpOrig, mem
      ensures Valid() && AddressesOk() && Abs() == Activate(old(Abs()), pc, from, until)
      ensures go <==> pc == from && IsCall(ClearRange(old(Abs())).mem, pc)
    {
      hide FindIn, Arm;
      ClearRangeStep();
      active, start, end := true, from, until;
      var call := IsCallInstruction(pc);
      if pc == from && call {
        ArmRangeStepBreakpoint(until);
        return true;
      }
      go := false;
    }

    method ConsumeRangeStepBreakpoint(a: int) returns (mine: bool)
      requires Valid() && AddressesOk()
      modifies this`armed, this`tmpAddr, this`tmpOrig, mem
      ensures Valid() && AddressesOk() && Abs() == Consume(old(Abs()), a)
      ensures mine <==> old(Abs()).HasTemporary(a)
    {
      if !armed || a != tmpAddr {
        return false;
      }
      mem[tmpAddr] := tmpOrig;
      armed, tmpAddr, tmpOrig := false, 0, 0;
      mine := true;
    }

    /**
     The instruction pointer goes back on the INT3 only for a breakpoint of the debugger's own; `r` is 1
     for one of the table's.
     */
    method HandleBreakpointTrap(eip: int) returns (r: int, resumeAt: int)
      requires Valid() && AddressesOk()
      modifies this, mem, table
      ensures Valid() && AddressesOk() && Abs() == BreakpointTrap(old(Abs()), eip)
      ensures var mine := eip != 0 && Recorded(old(Abs()), eip - 1);
        resumeAt == (if mine then eip - 1 else eip) && singleStep == (if mine then false else old(singleStep))
      ensures r == if eip != 0 && !old(Abs()).HasTemporary(eip - 1) && old(Abs()).Find(eip - 1) != NONE then 1 else 0
    {
      hide FindIn, ClearRange, Consume, PrepareResume;
      if eip == 0 {
        return 0, eip;
      }
      var mine := ConsumeRangeStepBreakpoint(eip - 1);
      if mine {
        singleStep := false;
        return 0, eip - 1;
      }
      ghost var s := old(Abs());
      assert Consume(s, eip - 1) == s by {
        NothingToConsume(s, eip - 1);
      }
      var missing := PrepareBreakpointResume(eip - 1);
      if missing != 0 {
        assert PrepareResume(s, eip - 1) == s by {
          NothingToPrepare(s, eip - 1);
        }
        return 0, eip;
      }
      ClearRangeStep();
      singleStep := false;
      r, resumeAt := 1, eip - 1;
    }

    /** Answers whether the target goes on running without the user being asked, and how. */
    method HandleDebugTrap(pc: int) returns (runsOn: bool)
      requires Valid() && AddressesOk() && 0 <= pc < mem.Length
      modifies this, mem, table
      ensures Valid() && AddressesOk() && Abs() == DebugTrap(old(Abs()), pc)
      ensures var inRange := old(active) && old(start) <= pc < old(end);
        && (runsOn <==> RunsOn(old(Abs()), pc))
        && singleStep == if inRange then !IsCall(FinishResume(old(Abs())).mem, pc) else !runsOn && old(singleStep)
    {
      hide FindIn, ClearRange, Arm;
      var auto := false;
      if pending != NONE {
        auto := autoContinue;
        var _ := FinishBreakpointResume();
      }
      if active {
        if pc < start || pc >= end {
          ClearRangeStep();
        } else {
          var call := IsCallInstruction(pc);
          if call {
            ArmRangeStepBreakpoint(end);
            singleStep := false;
          } else {
            singleStep := true;
          }
          return true;
        }
      }
      if auto {
        singleStep := false;
      }
      runsOn := auto;
    }

    method HandleContinue()
      requires Valid() && AddressesOk()
      modifies this, mem
      ensures Valid() && AddressesOk() && Abs() == Apply(old(Abs()), Continue)
      ensures singleStep <==> old(pending) != NONE
    {
      hide ClearRange;
      ClearRangeStep();
      if pending != NONE {
        autoContinue := true;
        singleStep := true;
      } else {
        singleStep := false;
      }
    }

    method HandleStep()
      requires Valid() && AddressesOk()
      modifies this, mem
      ensures Valid() && AddressesOk() && Abs() == Apply(old(Abs()), StepOne) && singleStep
    {
      hide ClearRange;
      ClearRangeStep();
      autoContinue := false;
      singleStep := true;
    }

    method HandleRangeStep(pc: int, from: int, until: int)
      requires Valid() && AddressesOk() && 0 <= pc < mem.Length && from < until && 0 <= until < mem.Length
      modifies this, mem
      ensures Valid() && AddressesOk() && Abs() == Apply(old(Abs()), StepRange(pc, from, until))
      ensures singleStep <==> !(pc == from && IsCall(ClearRange(old(Abs())).mem, pc))
    {
      hide ClearRange, Activate;
      var go := ActivateRangeStep(pc, from, until);
      autoContinue := false;
      singleStep := !go;
    }
  }

  lemma {:induction false} FoundAt(t: seq<Bp>, i: int, n: int, a: int)
    requires 0 <= i < n <= |t| && FindIn(t, i, a) == NONE && Matches(t[i], a)
    ensures FindIn(t, n, a) == i
  {
    var j := FindIn(t, n, a);
    assert j != NONE && j >= i;
  }

  lemma {:induction false} UnusedAt(t: seq<Bp>, i: int, n: int)
    requires 0 <= i < n <= |t| && FirstUnused(t, i) == NONE && !t[i].enabled
    ensures FirstUnused(t, n) == i
  {
    var j := FirstUnused(t, n);
    assert j != NONE && j >= i;
  }

  lemma {:induction false} NothingToConsume(s: Dbg, a: int)
    requires !s.HasTemporary(a)
    ensures Consume(s, a) == s
  {
  }

  lemma {:induction false} NothingToPrepare(s: Dbg, a: int)
    requires s.Find(a) == NONE
    ensures PrepareResume(s, a) == s
  {
  }
}
