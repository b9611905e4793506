/**
 Breakpoints as bytes written over the target's code: a table of at most 16 of them, one more temporary
 one while stepping over a range, and the memory they lie in.
 */
module Breakpoints {
  import opened Words

  const MAX_BREAKPOINTS := 16
  const INT3: byte := 0xCC
  const NONE := -1

  datatype Bp = Bp(addr: int, orig: byte, enabled: bool, inserted: bool)

  /** `pending` is the breakpoint being stepped over; `tmpAddr` holds the temporary one while `armed`. */
  datatype Dbg = Dbg(mem: seq<byte>, table: seq<Bp>, count: int, pending: int, autoContinue: bool,
                     active: bool, start: int, end: int, armed: bool, tmpAddr: int, tmpOrig: byte)
  {
    predicate InMemory(a: int) {
      0 <= a < |mem|
    }

    predicate IsEntry(i: int) {
      0 <= i < count && i < |table|
    }

    predicate HasTemporary(a: int) {
      armed && tmpAddr == a
    }

    function Poke(a: int, b: byte): Dbg {
      if InMemory(a) then this.(mem := mem[a := b]) else this
    }

    function Set(i: int, x: Bp): Dbg {
      if 0 <= i < |table| then this.(table := table[i := x]) else this
    }

    function Insert(i: int): Dbg {
      if IsEntry(i) && table[i].enabled && !table[i].inserted then
        Poke(table[i].addr, INT3).Set(i, table[i].(inserted := true))
      else this
    }

    function Restore(i: int): Dbg {
      if IsEntry(i) && table[i].inserted then Poke(table[i].addr, table[i].orig).Set(i, table[i].(inserted := false))
      else this
    }

    /** The enabled entry for an address, or NONE. */
    function Find(a: int): int {
      FindIn(table, count, a)
    }
  }

  predicate Matches(x: Bp, a: int) {
    x.enabled && x.addr == a
  }

  function FindIn(table: seq<Bp>, n: int, a: int): (i: int)
    ensures i == NONE || (0 <= i < n && i < |table| && Matches(table[i], a))
    ensures i == NONE ==> forall j :: 0 <= j < n && j < |table| ==> !Matches(table[j], a)
    ensures i != NONE ==> forall j :: 0 <= j < i ==> !Matches(table[j], a)
  {
    if n <= 0 then NONE
    else
      var i := FindIn(table, n - 1, a);
      if i != NONE then i else if n <= |table| && Matches(table[n - 1], a) then n - 1 else NONE
  }

  function FirstUnused(table: seq<Bp>, n: int): (i: int)
    ensures i == NONE || (0 <= i < n && i < |table| && !table[i].enabled)
    ensures i == NONE ==> forall j :: 0 <= j < n && j < |table| ==> table[j].enabled
    ensures i != NONE ==> forall j :: 0 <= j < i ==> table[j].enabled
  {
    if n <= 0 then NONE
    else
      var i := FirstUnused(table, n - 1);
      if i != NONE then i else if n <= |table| && !table[n - 1].enabled then n - 1 else NONE
  }

  // The operations.

  /** Whether the table is full. */
  predicate Full(s: Dbg) {
    FirstUnused(s.table, s.count) == NONE && s.count >= MAX_BREAKPOINTS
  }

  function Add(s: Dbg, a: int): (t: Dbg)
    requires s.InMemory(a)
    ensures |t.mem| == |s.mem|
  {
    if s.Find(a) != NONE || Full(s) then s
    else
      var i := FirstUnused(s.table, s.count);
      if i == NONE then s.(count := s.count + 1).Set(s.count, Bp(a, s.mem[a], true, false)).Insert(s.count)
      else s.Set(i, Bp(a, s.mem[a], true, false)).Insert(i)
  }

  /** Takes entry `i` out of use. */
  function Drop(s: Dbg, i: int): Dbg
    requires s.IsEntry(i)
  {
    var t := s.Restore(i);
    var u := t.Set(i, t.table[i].(enabled := false, inserted := false));
    if s.pending == i then u.(pending := NONE, autoContinue := false) else u
  }

  function Remove(s: Dbg, a: int): (t: Dbg)
    ensures |t.mem| == |s.mem|
  {
    if s.Find(a) == NONE then s else Drop(s, s.Find(a))
  }

  function EnableFirst(s: Dbg, n: nat): (t: Dbg)
    ensures |t.table| == |s.table| && t.count == s.count
  {
    if n == 0 then s
    else
      var t := EnableFirst(s, n - 1);
      if t.IsEntry(n - 1) && t.table[n - 1].enabled && t.table[n - 1].addr != 0 then t.Insert(n - 1) else t
  }

  function DisableFirst(s: Dbg, n: nat): (t: Dbg)
    ensures |t.table| == |s.table| && t.count == s.count
  {
    if n == 0 then s
    else
      var t := DisableFirst(s, n - 1);
      if t.IsEntry(n - 1) && t.table[n - 1].enabled && t.table[n - 1].addr != 0 then t.Restore(n - 1) else t
  }

  /** Takes the breakpoint's byte out so that the instruction under it can be stepped. */
  function PrepareResume(s: Dbg, a: int): Dbg {
    var i := s.Find(a);
    if i == NONE then s else s.Restore(i).(pending := i, autoContinue := false)
  }

  function FinishResume(s: Dbg): Dbg {
    if s.pending == NONE then s else s.Insert(s.pending).(pending := NONE, autoContinue := false)
  }

  function ClearRange(s: Dbg): (t: Dbg)
    ensures |t.mem| == |s.mem| && !t.armed
  {
    var t := if s.armed then s.Poke(s.tmpAddr, s.tmpOrig) else s;
    t.(active := false, start := 0, end := 0, armed := false, tmpAddr := 0, tmpOrig := 0)
  }

  /** The bytes of a near, far or indirect call. */
  predicate IsCall(mem: seq<byte>, pc: int) {
    0 < pc < |mem| &&
      (mem[pc] == 0xE8 || mem[pc] == 0x9A || (mem[pc] == 0xFF && pc + 1 < |mem| && IsCallOperand(mem[pc + 1])))
  }

  predicate IsCallOperand(b: byte) {
    b as int / 8 % 8 == 2 || b as int / 8 % 8 == 3
  }

  function Arm(s: Dbg, a: int): Dbg
    requires s.InMemory(a)
  {
    if s.Find(a) != NONE || s.HasTemporary(a) then s
    else s.(tmpAddr := a, tmpOrig := s.mem[a], armed := true).Poke(a, INT3)
  }

  /** Starts stepping over a range; a call at its start is stepped over with a breakpoint at the range's end. */
  function Activate(s: Dbg, pc: int, start: int, end: int): Dbg
    requires s.InMemory(end)
  {
    var t := ClearRange(s).(active := true, start := start, end := end);
    if pc == start && IsCall(t.mem, pc) then Arm(t, end) else t
  }

  function Consume(s: Dbg, a: int): Dbg {
    if s.HasTemporary(a) then s.Poke(a, s.tmpOrig).(armed := false, tmpAddr := 0, tmpOrig := 0) else s
  }

  /** An INT3 was executed at `eip - 1`: the temporary breakpoint's, one of the table's, or a foreign one. */
  function BreakpointTrap(s: Dbg, eip: int): Dbg {
    if eip == 0 then s
    else if s.HasTemporary(eip - 1) then Consume(s, eip - 1)
    else if s.Find(eip - 1) == NONE then s
    else ClearRange(PrepareResume(s, eip - 1))
  }

  /** A single step has been made: the breakpoint stepped over comes back, and a range is left or stepped on. */
  function DebugTrap(s: Dbg, pc: int): Dbg
    requires s.active ==> s.InMemory(s.end)
  {
    var t := FinishResume(s);
    if !t.active then t
    else if pc < t.start || pc >= t.end then ClearRange(t)
    else if IsCall(t.mem, pc) then Arm(t, t.end)
    else t
  }

  /** Whether the target goes on after a single step at `pc`, without the client being asked. */
  predicate RunsOn(s: Dbg, pc: int) {
    (s.active && s.start <= pc < s.end) || (s.pending != NONE && s.autoContinue)
  }

  // What holds.

  /** Whether the debugger keeps a byte of the target's for an address. */
  predicate Recorded(s: Dbg, a: int) {
    s.Find(a) != NONE || s.HasTemporary(a)
  }

  /** Whether the debugger has a breakpoint byte at an address. */
  predicate Patched(s: Dbg, a: int) {
    (s.Find(a) != NONE && s.table[s.Find(a)].inserted) || s.HasTemporary(a)
  }

  ghost predicate EntryOk(table: seq<Bp>, n: int, code: seq<byte>, i: int)
    requires 0 <= i < |table|
  {
    var x := table[i];
    && (x.inserted ==> x.enabled)
    && (x.enabled ==> i < n && 0 <= x.addr < |code| && x.orig == code[x.addr] && FindIn(table, n, x.addr) == i)
  }

  ghost predicate TableOk(table: seq<Bp>, n: int, code: seq<byte>) {
    && |table| == MAX_BREAKPOINTS && 0 <= n <= MAX_BREAKPOINTS
    && forall i :: 0 <= i < |table| ==> EntryOk(table, n, code, i)
  }

  function Byte(s: Dbg, code: seq<byte>, a: int): byte
    requires 0 <= a < |code|
  {
    if Patched(s, a) then INT3 else code[a]
  }

  /** Memory is the target's own code, with INT3 at exactly the inserted and the temporary breakpoints. */
  ghost predicate Overlay(s: Dbg, code: seq<byte>) {
    |s.mem| == |code| && forall a :: 0 <= a < |code| ==> s.mem[a] == Byte(s, code, a)
  }

  ghost predicate RangeOk(s: Dbg, code: seq<byte>) {
    && (s.active ==> 0 <= s.end < |code|)
    && (s.armed ==> s.active && s.tmpAddr == s.end && s.tmpOrig == code[s.end] && s.Find(s.end) == NONE)
  }

  ghost predicate Inv(s: Dbg, code: seq<byte>) {
    && TableOk(s.table, s.count, code) && Overlay(s, code) && RangeOk(s, code)
    && (s.pending != NONE ==> s.IsEntry(s.pending) && s.table[s.pending].enabled)
  }

  // Every operation writes one entry and one byte.

  lemma {:induction false} FindAfter(t: seq<Bp>, n: int, code: seq<byte>, k: int, x: Bp, m: int, a: int)
    requires TableOk(t, n, code) && 0 <= k < m <= |t| && n <= m
    requires t[k].enabled ==> t[k].addr == x.addr
    requires FindIn(t, n, x.addr) == NONE || FindIn(t, n, x.addr) == k
    ensures FindIn(t[k := x], m, a) == if a == x.addr then (if x.enabled then k else NONE) else FindIn(t, n, a)
  {
    var u := t[k := x];
    var i := FindIn(u, m, a);
    var j := FindIn(t, n, a);
    if i != NONE && i != k {
      assert EntryOk(t, n, code, i);
    }
    assert Matches(u[k], a) <==> a == x.addr && x.enabled;
    if j != NONE && j != k {
      assert Matches(u[j], a);
    }
  }

  lemma {:induction false} TableAfter(t: seq<Bp>, n: int, code: seq<byte>, k: int, x: Bp, m: int)
    requires TableOk(t, n, code) && 0 <= k < m <= |t| && n <= m
    requires t[k].enabled ==> t[k].addr == x.addr
    requires FindIn(t, n, x.addr) == NONE || FindIn(t, n, x.addr) == k
    requires 0 <= x.addr < |code| && x.orig == code[x.addr] && (x.inserted ==> x.enabled)
    ensures TableOk(t[k := x], m, code)
  {
    hide FindIn;
    var u := t[k := x];
    forall i | 0 <= i < |u| ensures EntryOk(u, m, code, i) {
      assert EntryOk(t, n, code, i);
      if u[i].enabled {
        FindAfter(t, n, code, k, x, m, u[i].addr);
      }
    }
  }

  /** The state with entry `k` rewritten and its address's byte set. */
  function Put(s: Dbg, k: int, x: Bp, b: byte, m: int): Dbg
    requires 0 <= k < |s.table|
  {
    s.(table := s.table[k := x], count := m).Poke(x.addr, b)
  }

  ghost predicate CanPut(s: Dbg, code: seq<byte>, k: int, x: Bp, b: byte, m: int) {
    && 0 <= k < m <= |s.table| && s.count <= m
    && (s.table[k].enabled ==> s.table[k].addr == x.addr)
    && (s.Find(x.addr) == NONE || s.Find(x.addr) == k)
    && 0 <= x.addr < |code| && x.orig == code[x.addr] && (x.inserted ==> x.enabled)
    && b == (if x.inserted then INT3 else code[x.addr])
    && !s.HasTemporary(x.addr)
    && (s.pending == k ==> x.enabled)
  }

  lemma {:induction false} PutKeeps(s: Dbg, code: seq<byte>, k: int, x: Bp, b: byte, m: int)
    requires Inv(s, code) && CanPut(s, code, k, x, b, m)
    ensures Inv(Put(s, k, x, b, m), code)
  {
    hide FindIn, EntryOk;
    var u := Put(s, k, x, b, m);
    TableAfter(s.table, s.count, code, k, x, m);
    forall a | 0 <= a < |code| ensures u.mem[a] == Byte(u, code, a) {
      FindAfter(s.table, s.count, code, k, x, m, a);
      assert s.mem[a] == Byte(s, code, a);
    }
    FindAfter(s.table, s.count, code, k, x, m, s.end);
  }

  lemma {:induction false} FoundIsEntry(s: Dbg, code: seq<byte>, i: int)
    requires Inv(s, code) && 0 <= i < |s.table| && s.table[i].enabled
    ensures s.IsEntry(i) && s.Find(s.table[i].addr) == i && s.InMemory(s.table[i].addr)
    ensures s.table[i].orig == code[s.table[i].addr] && !s.HasTemporary(s.table[i].addr)
    ensures s.mem[s.table[i].addr] == if s.table[i].inserted then INT3 else code[s.table[i].addr]
  {
    assert EntryOk(s.table, s.count, code, i);
  }

  lemma {:induction false} InsertKeeps(s: Dbg, code: seq<byte>, i: int)
    requires Inv(s, code)
    ensures Inv(s.Insert(i), code)
  {
    hide FindIn, EntryOk;
    if s.IsEntry(i) && s.table[i].enabled && !s.table[i].inserted {
      FoundIsEntry(s, code, i);
      PutKeeps(s, code, i, s.table[i].(inserted := true), INT3, s.count);
    }
  }

  lemma {:induction false} RestoreKeeps(s: Dbg, code: seq<byte>, i: int)
    requires Inv(s, code)
    ensures Inv(s.Restore(i), code)
  {
    hide FindIn, Overlay;
    if s.IsEntry(i) && s.table[i].inserted {
      assert EntryOk(s.table, s.count, code, i);
      FoundIsEntry(s, code, i);
      PutKeeps(s, code, i, s.table[i].(inserted := false), s.table[i].orig, s.count);
    }
  }

  /** Dropping an entry puts its address's own byte back and keeps every other byte and entry. */
  lemma {:induction false} DropKeeps(s: Dbg, code: seq<byte>, i: int)
    requires Inv(s, code) && s.IsEntry(i) && s.table[i].enabled
    ensures Inv(Drop(s, i), code)
    ensures forall a :: Drop(s, i).Find(a) == if a == s.table[i].addr then NONE else s.Find(a)
  {
    hide FindIn, EntryOk;
    FoundIsEntry(s, code, i);
    var x := s.table[i].(enabled := false, inserted := false);
    var t := if s.pending == i then s.(pending := NONE, autoContinue := false) else s;
    assert Overlay(t, code);
    PutKeeps(t, code, i, x, s.table[i].orig, s.count);
    assert Put(t, i, x, s.table[i].orig, s.count) == Drop(s, i) by {
      if !s.table[i].inserted {
        assert s.mem[s.table[i].addr := s.table[i].orig] == s.mem;
      } else {
        assert s.table[i := s.table[i].(inserted := false)][i := x] == s.table[i := x];
      }
    }
    forall a ensures Drop(s, i).Find(a) == if a == s.table[i].addr then NONE else s.Find(a) {
      FindAfter(s.table, s.count, code, i, x, s.count, a);
    }
  }

  lemma {:induction false} RemoveKeeps(s: Dbg, code: seq<byte>, a: int)
    requires Inv(s, code)
    ensures Inv(Remove(s, a), code)
    ensures forall b :: Remove(s, a).Find(b) == if b == a then NONE else s.Find(b)
  {
    hide Inv, Drop;
    assert s.Find(a) != NONE ==> s.table[s.Find(a)].enabled;
    if s.Find(a) != NONE {
      DropKeeps(s, code, s.Find(a));
    }
  }

  /** The slot a new breakpoint is put in: the first entry out of use, or the next one never used. */
  function Slot(s: Dbg): int {
    if FirstUnused(s.table, s.count) == NONE then s.count else FirstUnused(s.table, s.count)
  }

  lemma {:induction false} AddIsPut(s: Dbg, code: seq<byte>, a: int)
    requires Inv(s, code) && s.InMemory(a) && s.Find(a) == NONE && !Full(s)
    ensures 0 <= Slot(s) < |s.table| && !s.table[Slot(s)].enabled
    ensures var m := if Slot(s) == s.count then s.count + 1 else s.count;
      Add(s, a) == Put(s, Slot(s), Bp(a, s.mem[a], true, true), INT3, m)
  {
    hide FindIn, Overlay;
    assert EntryOk(s.table, s.count, code, Slot(s));
    var x := Bp(a, s.mem[a], true, false);
    assert s.table[Slot(s) := x][Slot(s) := x.(inserted := true)] == s.table[Slot(s) := x.(inserted := true)];
  }

  /** A new breakpoint anywhere but where the temporary one stands. */
  lemma {:induction false} AddKeeps(s: Dbg, code: seq<byte>, a: int)
    requires Inv(s, code) && s.InMemory(a) && !s.HasTemporary(a)
    ensures Inv(Add(s, a), code)
    ensures !Full(s) ==> Add(s, a).Find(a) != NONE && (forall b :: b != a ==> Add(s, a).Find(b) == s.Find(b))
  {
    hide FindIn, FirstUnused, EntryOk;
    if s.Find(a) == NONE && !Full(s) {
      AddIsPut(s, code, a);
      var m := if Slot(s) == s.count then s.count + 1 else s.count;
      var x := Bp(a, s.mem[a], true, true);
      assert s.mem[a] == Byte(s, code, a);
      PutKeeps(s, code, Slot(s), x, INT3, m);
      forall b ensures Add(s, a).Find(b) == if b == a then Slot(s) else s.Find(b) {
        FindAfter(s.table, s.count, code, Slot(s), x, m, b);
      }
    }
  }

  lemma {:induction false} EnableKeeps(s: Dbg, code: seq<byte>, n: nat)
    requires Inv(s, code)
    ensures Inv(EnableFirst(s, n), code)
  {
    hide Inv;
    if n > 0 {
      EnableKeeps(s, code, n - 1);
      InsertKeeps(EnableFirst(s, n - 1), code, n - 1);
    }
  }

  lemma {:induction false} DisableKeeps(s: Dbg, code: seq<byte>, n: nat)
    requires Inv(s, code)
    ensures Inv(DisableFirst(s, n), code)
  {
    hide Inv;
    if n > 0 {
      DisableKeeps(s, code, n - 1);
      RestoreKeeps(DisableFirst(s, n - 1), code, n - 1);
    }
  }

  lemma {:induction false} PrepareKeeps(s: Dbg, code: seq<byte>, a: int)
    requires Inv(s, code)
    ensures Inv(PrepareResume(s, a), code)
  {
    hide FindIn, EntryOk;
    RestoreKeeps(s, code, s.Find(a));
    assert s.Find(a) != NONE ==> s.IsEntry(s.Find(a)) && Matches(s.table[s.Find(a)], a);
  }

  lemma {:induction false} FinishKeeps(s: Dbg, code: seq<byte>)
    requires Inv(s, code)
    ensures Inv(FinishResume(s), code)
    ensures FinishResume(s).active == s.active && FinishResume(s).end == s.end
  {
    hide FindIn, EntryOk;
    InsertKeeps(s, code, s.pending);
  }

  /** The temporary breakpoint gone, its address has its own byte again. */
  lemma {:induction false} UnarmedKeeps(s: Dbg, code: seq<byte>)
    requires Inv(s, code) && s.armed
    ensures Inv(s.Poke(s.end, s.tmpOrig).(armed := false, tmpAddr := 0, tmpOrig := 0), code)
  {
    hide FindIn, EntryOk;
    var u := s.Poke(s.end, s.tmpOrig).(armed := false, tmpAddr := 0, tmpOrig := 0);
    forall a | 0 <= a < |code| ensures u.mem[a] == Byte(u, code, a) {
      assert s.mem[a] == Byte(s, code, a);
    }
  }

  lemma {:induction false} ClearKeeps(s: Dbg, code: seq<byte>)
    requires Inv(s, code)
    ensures Inv(ClearRange(s), code)
  {
    hide FindIn, EntryOk;
    if s.armed {
      UnarmedKeeps(s, code);
    }
  }

  lemma {:induction false} ArmKeeps(s: Dbg, code: seq<byte>)
    requires Inv(s, code) && s.active
    ensures Inv(Arm(s, s.end), code)
  {
    hide FindIn, EntryOk;
    var u := Arm(s, s.end);
    forall a | 0 <= a < |code| ensures u.mem[a] == Byte(u, code, a) {
      assert s.mem[a] == Byte(s, code, a);
    }
    assert s.mem[s.end] == Byte(s, code, s.end);
  }

  lemma {:induction false} ActivateKeeps(s: Dbg, code: seq<byte>, pc: int, start: int, end: int)
    requires Inv(s, code) && s.InMemory(end)
    ensures Inv(Activate(s, pc, start, end), code)
  {
    hide FindIn, EntryOk, IsCall, Arm;
    ClearKeeps(s, code);
    var t := ClearRange(s).(active := true, start := start, end := end);
    assert Overlay(t, code);
    ArmKeeps(t, code);
  }

  lemma {:induction false} ConsumeKeeps(s: Dbg, code: seq<byte>, a: int)
    requires Inv(s, code)
    ensures Inv(Consume(s, a), code)
  {
    hide FindIn, EntryOk, Overlay;
    if s.armed {
      UnarmedKeeps(s, code);
    }
  }

  lemma {:induction false} BreakpointTrapKeeps(s: Dbg, code: seq<byte>, eip: int)
    requires Inv(s, code)
    ensures Inv(BreakpointTrap(s, eip), code)
  {
    hide Inv, PrepareResume, ClearRange, Consume;
    ConsumeKeeps(s, code, eip - 1);
    PrepareKeeps(s, code, eip - 1);
    ClearKeeps(PrepareResume(s, eip - 1), code);
  }

  lemma {:induction false} DebugTrapKeeps(s: Dbg, code: seq<byte>, pc: int)
    requires Inv(s, code)
    ensures Inv(DebugTrap(s, pc), code)
  {
    hide TableOk, Overlay, FinishResume, ClearRange, Arm, IsCall;
    FinishKeeps(s, code);
    var t := FinishResume(s);
    ClearKeeps(t, code);
    if t.active {
      ArmKeeps(t, code);
    }
  }

  lemma {:induction false} OwnWriteKeeps(s: Dbg, code: seq<byte>, a: int, b: byte)
    requires Inv(s, code) && s.InMemory(a) && !Recorded(s, a)
    ensures Inv(s.Poke(a, b), code[a := b])
  {
    hide FindIn;
    var u, own := s.Poke(a, b), code[a := b];
    forall i | 0 <= i < |s.table| ensures EntryOk(s.table, s.count, own, i) {
      assert EntryOk(s.table, s.count, code, i);
    }
    forall c | 0 <= c < |code| ensures u.mem[c] == Byte(u, own, c) {
      assert s.mem[c] == Byte(s, code, c);
    }
  }

  /** The target, or the debugger for it, changes a byte: safe exactly where no byte is kept for the address. */
  lemma {:induction false} WriteIsSafeIffUnrecorded(s: Dbg, code: seq<byte>, a: int, b: byte)
    requires Inv(s, code) && s.InMemory(a) && b != code[a]
    ensures Inv(s.Poke(a, b), code[a := b]) <==> !Recorded(s, a)
  {
    hide FindIn, Overlay;
    if !Recorded(s, a) {
      OwnWriteKeeps(s, code, a, b);
    } else if s.Find(a) != NONE {
      assert EntryOk(s.table, s.count, code, s.Find(a));
      assert Inv(s.Poke(a, b), code[a := b]) ==> EntryOk(s.table, s.count, code[a := b], s.Find(a));
    }
  }

  // Runs: the debugger's commands, the traps, and the target's own writes.

  datatype Event =
    | SetBreak(a: int, kind: int)
    | UnsetBreak(a: int)
    | EnableAll
    | DisableAll
    | Trap(eip: int)
    | Stepped(pc: int)
    | Continue
    | StepOne
    | StepRange(pc: int, start: int, end: int)
    | Write(a: int, b: byte)

  /** Kinds above 1 are watchpoints, which are refused. */
  predicate Supported(kind: int) {
    kind == 0 || kind == 1
  }

  predicate Possible(s: Dbg, e: Event) {
    match e
    case SetBreak(a, _) => s.InMemory(a)
    case StepRange(_, start, end) => start < end && s.InMemory(end)
    case Write(a, _) => s.InMemory(a)
    case _ => true
  }

  /** What the client and the target must not do. */
  predicate Fair(s: Dbg, e: Event) {
    match e
    case SetBreak(a, _) => !s.HasTemporary(a)
    case Write(a, _) => !Recorded(s, a)
    case _ => true
  }

  function Apply(s: Dbg, e: Event): Dbg
    requires Possible(s, e) && (s.active ==> s.InMemory(s.end))
  {
    match e
    case SetBreak(a, kind) => if Supported(kind) then Add(s, a) else s
    case UnsetBreak(a) => Remove(s, a)
    case EnableAll => if s.count > 0 then EnableFirst(s, s.count) else s
    case DisableAll => if s.count > 0 then DisableFirst(s, s.count) else s
    case Trap(eip) => BreakpointTrap(s, eip)
    case Stepped(pc) => DebugTrap(s, pc)
    case Continue => var t := ClearRange(s); if t.pending != NONE then t.(autoContinue := true) else t
    case StepOne => ClearRange(s).(autoContinue := false)
    case StepRange(pc, start, end) => Activate(s, pc, start, end).(autoContinue := false)
    case Write(a, b) => s.Poke(a, b)
  }

  /** The target's own code after an event. */
  function Own(code: seq<byte>, e: Event): (r: seq<byte>)
    ensures |r| == |code|
  {
    if e.Write? && 0 <= e.a < |code| then code[e.a := e.b] else code
  }

  lemma {:induction false} SameLength(s: Dbg, code: seq<byte>)
    requires Inv(s, code)
    ensures |s.mem| == |code|
  {
    hide FindIn, EntryOk, Byte;
  }

  lemma {:induction false} EventKeeps(s: Dbg, code: seq<byte>, e: Event)
    requires Inv(s, code) && Possible(s, e) && Fair(s, e)
    ensures Inv(Apply(s, e), Own(code, e))
  {
    hide FindIn, EntryOk, Overlay, Add, Remove, EnableFirst, DisableFirst, BreakpointTrap, DebugTrap, ClearRange, Activate;
    match e {
      case SetBreak(a, kind) => AddKeeps(s, code, a);
      case UnsetBreak(a) => RemoveKeeps(s, code, a);
      case EnableAll => EnableKeeps(s, code, s.count);
      case DisableAll => DisableKeeps(s, code, s.count);
      case Trap(eip) => BreakpointTrapKeeps(s, code, eip);
      case Stepped(pc) => DebugTrapKeeps(s, code, pc);
      case Continue => ClearKeeps(s, code); AutoContinueFree(ClearRange(s), code, true);
      case StepOne => ClearKeeps(s, code); AutoContinueFree(ClearRange(s), code, false);
      case StepRange(pc, start, end) =>
        ActivateKeeps(s, code, pc, start, end);
        AutoContinueFree(Activate(s, pc, start, end), code, false);
      case Write(a, b) => SameLength(s, code); OwnWriteKeeps(s, code, a, b);
    }
  }

  lemma {:induction false} AutoContinueFree(s: Dbg, code: seq<byte>, on: bool)
    requires Inv(s, code)
    ensures Inv(s.(autoContinue := on), code)
  {
    hide FindIn, EntryOk;
    assert forall a :: 0 <= a < |code| ==> Byte(s.(autoContinue := on), code, a) == Byte(s, code, a);
  }

  function Unused(): Bp {
    Bp(0, 0, false, false)
  }

  /** No breakpoint, and the target's code in memory. */
  function Initial(code: seq<byte>): Dbg {
    Dbg(code, seq(MAX_BREAKPOINTS, _ => Unused()), 0, NONE, false, false, 0, 0, false, 0, 0)
  }

  function Front(es: seq<Event>): (r: seq<Event>)
    requires es != []
    ensures |r| == |es| - 1
  {
    es[..|es| - 1]
  }

  /** The state after a run, and the target's own code then. */
  ghost predicate Run(code: seq<byte>, es: seq<Event>, s: Dbg, own: seq<byte>)
    decreases |es|
  {
    if es == [] then s == Initial(code) && own == code
    else
      exists t: Dbg, c: seq<byte> ::
        Run(code, Front(es), t, c) && After(t, c, es[|es| - 1], s, own)
  }

  ghost predicate After(t: Dbg, c: seq<byte>, e: Event, s: Dbg, own: seq<byte>) {
    Possible(t, e) && Fair(t, e) && (t.active ==> t.InMemory(t.end)) && s == Apply(t, e) && own == Own(c, e)
  }

  /** Memory is the code with INT3 at exactly the inserted and temporary breakpoints, after any run. */
  lemma {:induction false} RunKeeps(code: seq<byte>, es: seq<Event>, s: Dbg, own: seq<byte>)
    requires Run(code, es, s, own)
    ensures Inv(s, own)
    decreases |es|
  {
    hide Inv, Apply, Possible, Fair;
    if es == [] {
      InitialInv(code);
    } else {
      var t: Dbg, c: seq<byte> :| Run(code, Front(es), t, c) && After(t, c, es[|es| - 1], s, own);
      RunKeeps(code, Front(es), t, c);
      EventKeeps(t, c, es[|es| - 1]);
    }
  }

  lemma {:induction false} InitialInv(code: seq<byte>)
    ensures Inv(Initial(code), code)
  {
  }

  // Taking everything out again.

  function RemoveAll(s: Dbg, all: seq<int>): Dbg
    decreases |all|
  {
    if all == [] then s else RemoveAll(Remove(s, all[0]), all[1..])
  }

  ghost predicate Listed(s: Dbg, all: seq<int>) {
    forall a :: s.Find(a) != NONE ==> a in all
  }

  lemma {:induction false} RemoveAllKeeps(s: Dbg, code: seq<byte>, all: seq<int>)
    requires Inv(s, code) && Listed(s, all)
    ensures Inv(RemoveAll(s, all), code)
    ensures forall a :: RemoveAll(s, all).Find(a) == NONE
    decreases |all|
  {
    hide Inv, FindIn, Remove;
    if all == [] {
    } else {
      RemoveKeeps(s, code, all[0]);
      assert Listed(Remove(s, all[0]), all[1..]);
      RemoveAllKeeps(Remove(s, all[0]), code, all[1..]);
    }
  }

  lemma {:induction false} NothingLeft(s: Dbg, code: seq<byte>)
    requires Inv(s, code) && !s.armed && forall a :: s.Find(a) == NONE
    ensures s.mem == code
  {
    hide FindIn, EntryOk;
    assert forall a :: 0 <= a < |code| ==> s.mem[a] == Byte(s, code, a);
  }

  lemma {:induction false} ClearKeepsTable(s: Dbg)
    ensures forall a :: ClearRange(s).Find(a) == s.Find(a)
  {
    hide FindIn;
    assert ClearRange(s).table == s.table && ClearRange(s).count == s.count;
  }

  /** After any run, removing the breakpoints in any order and ending the range step gives the code byte for byte. */
  lemma {:induction false} EverythingIsRestored(code: seq<byte>, es: seq<Event>, s: Dbg, own: seq<byte>, all: seq<int>)
    requires Run(code, es, s, own) && Listed(s, all)
    ensures ClearRange(RemoveAll(s, all)).mem == own
    ensures RemoveAll(ClearRange(s), all).mem == own
  {
    hide Inv, FindIn, ClearRange, RemoveAll, Run;
    RunKeeps(code, es, s, own);
    RemoveAllKeeps(s, own, all);
    var t := RemoveAll(s, all);
    ClearKeeps(t, own);
    ClearKeepsTable(t);
    NothingLeft(ClearRange(t), own);
    ClearKeeps(s, own);
    ClearKeepsTable(s);
    RemoveAllKeeps(ClearRange(s), own, all);
    RemoveAllUnarmed(ClearRange(s), all);
    NothingLeft(RemoveAll(ClearRange(s), all), own);
  }

  lemma {:induction false} RemoveAllUnarmed(s: Dbg, all: seq<int>)
    requires !s.armed
    ensures !RemoveAll(s, all).armed
    decreases |all|
  {
    hide FindIn;
    if all != [] {
      RemoveAllUnarmed(Remove(s, all[0]), all[1..]);
    }
  }

  /**
   A breakpoint set where the temporary one stands remembers INT3 as the target's byte: ending the range
   step and removing it again then leaves that INT3 behind.
   */
  lemma {:induction false} SetOnTemporaryIsKept(s: Dbg, code: seq<byte>, a: int)
    requires Inv(s, code) && s.InMemory(a) && s.Find(a) == NONE && !Full(s)
    ensures Remove(ClearRange(Add(s, a)), a).mem[a] == code[a] <==> !s.HasTemporary(a) || code[a] == INT3
  {
    hide FindIn, FirstUnused, EntryOk;
    AddIsPut(s, code, a);
    var m := if Slot(s) == s.count then s.count + 1 else s.count;
    var x := Bp(a, s.mem[a], true, true);
    var t := Add(s, a);
    AddedIsFound(s, code, a, x, m);
    assert s.mem[a] == Byte(s, code, a);
    assert ClearRange(t).Find(a) == Slot(s) && ClearRange(t).table[Slot(s)] == x;
  }

  lemma {:induction false} AddedIsFound(s: Dbg, code: seq<byte>, a: int, x: Bp, m: int)
    requires Inv(s, code) && s.Find(a) == NONE && 0 <= Slot(s) < m <= |s.table| && s.count <= m && !s.table[Slot(s)].enabled
    requires x.enabled && x.addr == a
    ensures FindIn(s.table[Slot(s) := x], m, a) == Slot(s)
  {
    hide Overlay;
    FindAfter(s.table, s.count, code, Slot(s), x, m, a);
  }

  // A breakpoint that is set is in memory, unless it is being stepped over.

  predicate Live(s: Dbg) {
    forall i :: 0 <= i < |s.table| && s.table[i].enabled ==> s.table[i].inserted || i == s.pending
  }

  /** A trap on a second breakpoint while one is being stepped over: the first is never put back. */
  predicate Forgets(s: Dbg, eip: int)
    requires s.pending != NONE ==> s.IsEntry(s.pending)
  {
    && eip != 0 && !s.HasTemporary(eip - 1)
    && s.Find(eip - 1) != NONE && s.pending != NONE && s.Find(eip - 1) != s.pending
    && s.table[s.pending].enabled && !s.table[s.pending].inserted
  }

  lemma {:induction false} TrapKeepsBreakpointsLive(s: Dbg, code: seq<byte>, eip: int)
    requires Inv(s, code) && Live(s)
    ensures Live(BreakpointTrap(s, eip)) <==> !Forgets(s, eip)
  {
    hide FindIn, Overlay, EntryOk;
    var i, t := s.Find(eip - 1), BreakpointTrap(s, eip);
    if eip != 0 && !s.HasTemporary(eip - 1) && i != NONE {
      assert t.pending == i && t.table == s.Restore(i).table;
      if Forgets(s, eip) {
        assert t.table[s.pending] == s.table[s.pending];
      }
    } else {
      assert t.table == s.table && t.pending == s.pending;
    }
  }

  /** Every breakpoint is back once the instruction under the last one hit has been stepped. */
  lemma {:induction false} StepPutsBreakpointsBack(s: Dbg, code: seq<byte>, pc: int)
    requires Inv(s, code) && Live(s)
    ensures var t := DebugTrap(s, pc);
      t.pending == NONE && forall i :: 0 <= i < |t.table| && t.table[i].enabled ==> t.table[i].inserted
  {
    hide FindIn, Overlay, IsCall;
    SameLength(s, code);
    assert DebugTrap(s, pc).table == FinishResume(s).table;
  }

  /** Whether an instruction is a call is asked of the patched memory: a breakpoint on its bytes hides it. */
  lemma {:induction false} CallIsSeen(s: Dbg, code: seq<byte>, pc: int)
    requires Inv(s, code)
    ensures IsCall(s.mem, pc) <==>
      IsCall(code, pc) && !Patched(s, pc) && (code[pc] == 0xFF ==> !Patched(s, pc + 1))
  {
    hide FindIn, EntryOk, TableOk;
    if 0 < pc < |code| {
      assert s.mem[pc] == Byte(s, code, pc);
      if pc + 1 < |code| {
        assert s.mem[pc + 1] == Byte(s, code, pc + 1);
      }
    }
  }

  // Runs in which the conditions above are not met.

  /** A run in which the client and the target may do what they must not. */
  ghost predicate Plays(s: Dbg, es: seq<Event>, t: Dbg)
    decreases |es|
  {
    if es == [] then t == s
    else Possible(s, es[0]) && (s.active ==> s.InMemory(s.end)) && Plays(Apply(s, es[0]), es[1..], t)
  }

  lemma {:induction false} PlaysMore(s: Dbg, e: Event, es: seq<Event>, t: Dbg) returns (more: seq<Event>)
    requires Possible(s, e) && (s.active ==> s.InMemory(s.end)) && Plays(Apply(s, e), es, t)
    ensures more == [e] + es && Plays(s, more, t)
  {
    hide Apply, Possible;
    more := [e] + es;
    assert more[1..] == es;
  }

  /** A call over the bytes 1 to 5, with two other instructions behind it. */
  function Calling(): seq<byte> {
    [0x90, 0xE8, 0, 0, 0, 0, 0x90, 0x90]
  }

  /** The state with the given memory, one or two entries, and the rest as at the start. */
  function With(mem: seq<byte>, x: Bp, y: Bp, count: int, pending: int): Dbg {
    Initial(mem).(table := Initial(mem).table[0 := x][1 := y], count := count, pending := pending)
  }

  lemma {:induction false} FoundIn(mem: seq<byte>, x: Bp, y: Bp, pending: int, a: int)
    ensures With(mem, x, Unused(), 1, pending).Find(a) == if Matches(x, a) then 0 else NONE
    ensures With(mem, x, y, 2, pending).Find(a) == if Matches(x, a) then 0 else if Matches(y, a) then 1 else NONE
  {
    var one, two := With(mem, x, Unused(), 1, pending), With(mem, x, y, 2, pending);
    assert one.table[0] == x && two.table[0] == x && two.table[1] == y;
    assert Matches(x, a) ==> one.Find(a) == 0 && two.Find(a) == 0;
    assert !Matches(x, a) && Matches(y, a) ==> Matches(two.table[1], a);
  }

  /** Nothing is armed, no breakpoint is set, and yet there is an INT3 that is not the target's. */
  lemma {:induction false} BreakpointLeftBehind() returns (es: seq<Event>, t: Dbg)
    ensures Plays(Initial(Calling()), es, t)
    ensures !t.armed && (forall a :: t.Find(a) == NONE) && t.mem == Calling()[6 := INT3]
  {
    hide Plays, FindIn, FirstUnused;
    var code, patched := Calling(), Calling()[6 := INT3];
    var s0 := Initial(code);
    var s1 := s0.(mem := patched, active := true, start := 1, end := 6, armed := true, tmpAddr := 6, tmpOrig := 0x90);
    assert s0.Find(6) == NONE;
    assert Apply(s0, StepRange(1, 1, 6)) == s1;
    var x := Bp(6, INT3, true, true);
    var s2 := s1.(count := 1, table := s1.table[0 := x]);
    BreakpointSet(s1, 6);
    assert s1.mem[6 := INT3] == s1.mem;
    var s3 := With(code, x, Unused(), 1, NONE);
    assert s3.table == s2.table && patched[6 := 0x90] == code;
    assert Apply(s2, Continue) == s3;
    t := With(patched, x.(enabled := false, inserted := false), Unused(), 1, NONE);
    FoundIn(code, x, Unused(), NONE, 6);
    assert Apply(s3, UnsetBreak(6)) == t by {
      assert s3.table[0 := x.(inserted := false)][0 := t.table[0]] == t.table;
    }
    PlaysNothing(t);
    es := PlaysMore(s3, UnsetBreak(6), [], t);
    es := PlaysMore(s2, Continue, es, t);
    es := PlaysMore(s1, SetBreak(6, 0), es, t);
    es := PlaysMore(s0, StepRange(1, 1, 6), es, t);
    forall a ensures t.Find(a) == NONE {
      FoundIn(patched, t.table[0], Unused(), NONE, a);
    }
  }

  lemma {:induction false} PlaysNothing(t: Dbg)
    ensures Plays(t, [], t)
  {
  }

  /** All entries used so far being in use, a new breakpoint takes the next one. */
  lemma {:induction false} BreakpointSet(s: Dbg, a: int)
    requires s.InMemory(a) && 0 <= s.count < |s.table| == MAX_BREAKPOINTS && s.Find(a) == NONE
    requires (forall j :: 0 <= j < s.count ==> s.table[j].enabled) && (s.active ==> s.InMemory(s.end))
    ensures Apply(s, SetBreak(a, 0))
         == s.(count := s.count + 1, mem := s.mem[a := INT3], table := s.table[s.count := Bp(a, s.mem[a], true, true)])
  {
    hide FindIn;
    assert FirstUnused(s.table, s.count) == NONE;
    var x := Bp(a, s.mem[a], true, false);
    assert s.table[s.count := x][s.count := x.(inserted := true)] == s.table[s.count := x.(inserted := true)];
  }

  lemma {:induction false} RunOneMore(code: seq<byte>, es: seq<Event>, t: Dbg, e: Event)
    requires Run(code, es, t, code) && Possible(t, e) && Fair(t, e) && (t.active ==> t.InMemory(t.end)) && !e.Write?
    ensures Run(code, es + [e], Apply(t, e), code)
  {
    hide Apply, Possible, Fair;
    var more := es + [e];
    assert Front(more) == es && more[|more| - 1] == e;
    assert Run(code, Front(more), t, code) && After(t, code, e, Apply(t, e), code);
  }

  /** Breakpoints on bytes 1 and 7, and the first one hit. */
  lemma {:induction false} TwoSetOneHit() returns (es: seq<Event>)
    ensures Run(Calling(), es, OneHit(), Calling())
  {
    hide FindIn, FirstUnused, Run;
    var code := Calling();
    var x, y := Bp(1, 0xE8, true, true), Bp(7, 0x90, true, true);
    var s0, s1 := Initial(code), With(code[1 := INT3], x, Unused(), 1, NONE);
    var s2 := With(code[1 := INT3][7 := INT3], x, y, 2, NONE);
    es := [];
    NothingRun(code);
    assert s0.Find(1) == NONE;
    BreakpointSet(s0, 1);
    assert s0.table[0 := x] == s1.table;
    RunOneMore(code, es, s0, SetBreak(1, 0));
    es := es + [SetBreak(1, 0)];
    FoundIn(s1.mem, x, Unused(), NONE, 7);
    BreakpointSet(s1, 7);
    assert s1.table[1 := y] == s2.table;
    RunOneMore(code, es, s1, SetBreak(7, 0));
    es := es + [SetBreak(7, 0)];
    FirstHit(s2, x, y);
    RunOneMore(code, es, s2, Trap(2));
    es := es + [Trap(2)];
  }

  lemma {:induction false} NothingRun(code: seq<byte>)
    ensures Run(code, [], Initial(code), code)
  {
  }

  function OneHit(): Dbg {
    With(Calling()[7 := INT3], Bp(1, 0xE8, true, false), Bp(7, 0x90, true, true), 2, 0)
  }

  lemma {:induction false} FirstHit(s: Dbg, x: Bp, y: Bp)
    requires x == Bp(1, 0xE8, true, true) && y == Bp(7, 0x90, true, true)
    requires s == With(Calling()[1 := INT3][7 := INT3], x, y, 2, NONE)
    ensures Apply(s, Trap(2)) == OneHit()
  {
    hide FindIn;
    FoundIn(s.mem, x, y, NONE, 1);
    assert s.mem[1 := 0xE8] == OneHit().mem && s.table[0 := x.(inserted := false)] == OneHit().table;
  }

  /** Stepping over the call from there: the target runs freely to a temporary breakpoint behind it. */
  function SteppingOver(): Dbg {
    OneHit().(mem := OneHit().mem[6 := INT3], active := true, start := 1, end := 6,
              armed := true, tmpAddr := 6, tmpOrig := 0x90)
  }

  lemma {:induction false} StepsOver()
    ensures Possible(OneHit(), StepRange(1, 1, 6)) && Apply(OneHit(), StepRange(1, 1, 6)) == SteppingOver()
  {
    hide FindIn;
    var s := OneHit();
    FoundIn(s.mem, s.table[0], s.table[1], 0, 6);
    assert s.table[0] == Bp(1, 0xE8, true, false) && s.table[1] == Bp(7, 0x90, true, true);
  }

  lemma {:induction false} SecondHit()
    ensures BreakpointTrap(SteppingOver(), 8) == With(Calling(), Bp(1, 0xE8, true, false), Bp(7, 0x90, true, false), 2, 1)
    ensures Live(SteppingOver()) && Forgets(SteppingOver(), 8)
  {
    hide FindIn;
    var s, x, y := SteppingOver(), Bp(1, 0xE8, true, false), Bp(7, 0x90, true, true);
    FoundIn(s.mem, x, y, 0, 7);
    assert s.Find(7) == With(s.mem, x, y, 2, 0).Find(7);
    assert s.mem[7 := 0x90][6 := 0x90] == Calling();
    assert s.table[1 := y.(inserted := false)] == s.table[0 := x][1 := y.(inserted := false)];
  }

  /**
   A breakpoint on a call is hit and the call stepped over, and in the routine called there is another: the
   first is set, but not in memory.
   */
  lemma {:induction false} BreakpointForgotten() returns (es: seq<Event>, t: Dbg)
    ensures Run(Calling(), es, t, Calling()) && t.pending == 1
    ensures t.Find(1) == 0 && t.table[0].enabled && !t.table[0].inserted && t.mem == Calling()
  {
    hide FindIn, Run;
    es := TwoSetOneHit();
    StepsOver();
    RunOneMore(Calling(), es, OneHit(), StepRange(1, 1, 6));
    es := es + [StepRange(1, 1, 6)];
    t := BreakpointTrap(SteppingOver(), 8);
    RunOneMore(Calling(), es, SteppingOver(), Trap(8));
    es := es + [Trap(8)];
    SecondHit();
    FoundIn(Calling(), Bp(1, 0xE8, true, false), Bp(7, 0x90, true, false), 1, 1);
  }

  /** A breakpoint on a call: the call is in the code, but not seen in memory. */
  lemma {:induction false} CallHidden() returns (es: seq<Event>, s: Dbg)
    ensures Run(Calling(), es, s, Calling()) && IsCall(Calling(), 1) && !IsCall(s.mem, 1)
  {
    hide FindIn, FirstUnused, Run;
    var s0 := Initial(Calling());
    NothingRun(Calling());
    assert s0.Find(1) == NONE;
    BreakpointSet(s0, 1);
    RunOneMore(Calling(), [], s0, SetBreak(1, 0));
    es, s := [] + [SetBreak(1, 0)], Apply(s0, SetBreak(1, 0));
  }

  /** The target overwrites its call under the breakpoint: removing that brings the old call back. */
  lemma {:induction false} WriteUndone() returns (es: seq<Event>, s: Dbg)
    ensures Run(Calling(), es, s, Calling())
    ensures s.InMemory(1) && Remove(s.Poke(1, 0x90), 1).mem[1] == 0xE8
  {
    hide FindIn, FirstUnused, Run;
    var s0, x := Initial(Calling()), Bp(1, 0xE8, true, true);
    NothingRun(Calling());
    assert s0.Find(1) == NONE;
    BreakpointSet(s0, 1);
    RunOneMore(Calling(), [], s0, SetBreak(1, 0));
    es, s := [] + [SetBreak(1, 0)], Apply(s0, SetBreak(1, 0));
    assert s.Find(1) == 0 by {
      FoundIn(s.mem, x, Unused(), NONE, 1);
      assert s.table == With(s.mem, x, Unused(), 1, NONE).table;
    }
  }
}
