/**
 A pipe between any number of processes. A process runs until it sleeps: on the pipe's lock, for data,
 for space, or on the disk in the middle of a transfer, which is when others see the lock taken. Some
 process without a part in the pipe may be in `sync`, which takes the lock while it writes the inode.
 */
module Pipes {
  import opened Words
  import opened FileBytes

  const PIPSIZ := 3072

  datatype Chan = Awake | OnLock | OnSpace | OnData

  /** Where a process stands in `ReadP` or `WriteP`; a transfer remembers the offset it started at. */
  datatype Code =
    | User
    | Read(count: nat)
    | Write(rest: seq<byte>)
    | ReadCopy(offset: nat, count: nat)
    | WriteCopy(offset: nat, rest: seq<byte>, n: nat)

  /** `r` and `w` say which ends a process has open. */
  datatype Proc = Proc(code: Code, chan: Chan, r: bool, w: bool)

  /** Whether `sync` is at the inode: not, with its lock, or still after somebody else dropped that lock. */
  datatype Sync = Away | Holding | Overrun

  /**
   The inode with its file's contents up to `i_size`, the read end's offset, and, as a history, all
   bytes that writers got rid of and all that readers received.
   */
  datatype Pipe = Pipe(data: seq<byte>, f_offset: nat, iread: bool, iwrite: bool, locked: bool, want: bool, i_count: int,
                       sync: Sync, procs: seq<Proc>, accepted: seq<byte>, delivered: seq<byte>)
  {
    predicate IsProc(p: int) {
      0 <= p < |procs|
    }

    function Set(p: int, code: Code, chan: Chan): Pipe
      requires IsProc(p)
    {
      this.(procs := procs[p := procs[p].(code := code, chan := chan)])
    }

    /** Unlocks the inode, waking who waits for it, and wakes who waits for space or for data if asked to. */
    function Prele(space: bool, data: bool): Pipe {
      this.(locked := false, want := false, sync := if sync == Holding then Overrun else sync,
            procs := Woken(procs, want, space, data))
    }
  }

  predicate Wakes(chan: Chan, lock: bool, space: bool, data: bool) {
    match chan
    case Awake => false
    case OnLock => lock
    case OnSpace => space
    case OnData => data
  }

  /** `WakeUpAll` on the pipe's channels. */
  function Woken(procs: seq<Proc>, lock: bool, space: bool, data: bool): (r: seq<Proc>)
    ensures |r| == |procs|
    ensures forall q :: 0 <= q < |procs| ==>
              r[q] == procs[q].(chan := if Wakes(procs[q].chan, lock, space, data) then Awake else procs[q].chan)
  {
    seq(|procs|, q requires 0 <= q < |procs| =>
      procs[q].(chan := if Wakes(procs[q].chan, lock, space, data) then Awake else procs[q].chan))
  }

  /** The same ends are open. */
  ghost predicate SameFlags(s: Pipe, t: Pipe) {
    && |t.procs| == |s.procs| && t.i_count == s.i_count
    && forall q :: s.IsProc(q) ==> t.procs[q].r == s.procs[q].r && t.procs[q].w == s.procs[q].w
  }

  /** `ReadP` from its `loop` on, up to the transfer, the return or the sleep. */
  function ReadP(s: Pipe, p: int, count: nat): (t: Pipe)
    requires s.IsProc(p)
    ensures SameFlags(s, t)
  {
    if s.locked then s.(want := true).Set(p, Read(count), OnLock)
    else if s.f_offset == |s.data| then
      var reset := s.f_offset != 0;
      var t := s.(f_offset := 0, data := [], iwrite := s.iwrite && !reset).Prele(reset && s.iwrite, false);
      if t.i_count < 2 then t.Set(p, User, Awake)
      else t.(iread := true).Set(p, Read(count), OnData)
    else s.(locked := true).Set(p, ReadCopy(s.f_offset, count), Awake)
  }

  /** The end of `ReadP`: as much as there was goes to the user. */
  function ReadDone(s: Pipe, p: int, offset: nat, count: nat): (t: Pipe)
    requires s.IsProc(p)
    ensures SameFlags(s, t)
  {
    var got := Window(s.data, offset, count);
    s.(f_offset := offset + |got|, delivered := s.delivered + got).Prele(false, false).Set(p, User, Awake)
  }

  /** `WriteP` from its `loop` on. */
  function WriteP(s: Pipe, p: int, rest: seq<byte>): (t: Pipe)
    requires s.IsProc(p)
    ensures SameFlags(s, t)
  {
    if s.locked then s.(want := true).Set(p, Write(rest), OnLock)
    else if rest == [] || s.i_count < 2 then s.Prele(false, false).Set(p, User, Awake)
    else if |s.data| == PIPSIZ then s.(iwrite := true).Prele(false, false).Set(p, Write(rest), OnSpace)
    else s.(locked := true).Set(p, WriteCopy(|s.data|, rest, Max(0, Min(|rest|, PIPSIZ - |s.data|))), Awake)
  }

  function WriteDone(s: Pipe, p: int, offset: nat, rest: seq<byte>, n: nat): (t: Pipe)
    requires s.IsProc(p)
    ensures SameFlags(s, t)
  {
    var chunk := rest[..Min(n, |rest|)];
    s.(data := Overlay(s.data, offset, chunk), accepted := s.accepted + chunk, iread := false)
     .Prele(false, s.iread).Set(p, Write(rest[|chunk|..]), Awake)
  }

  /** Whether another process than `p` has the read end, or the write end, open. */
  predicate OthersHave(s: Pipe, p: int, readEnd: bool) {
    exists q :: 0 <= q < |s.procs| && q != p && (if readEnd then s.procs[q].r else s.procs[q].w)
  }

  /** `CloseF`: everybody is woken; the last close of an end drops its inode reference, which unlocks the inode. */
  function CloseF(s: Pipe, p: int, readEnd: bool): Pipe
    requires s.IsProc(p)
  {
    var procs := s.procs[p := if readEnd then s.procs[p].(r := false) else s.procs[p].(w := false)];
    var t := s.(iread := false, iwrite := false, procs := procs);
    if OthersHave(s, p, readEnd) then t.(procs := Woken(procs, false, true, true))
    else t.(i_count := t.i_count - 1).Prele(true, true)
  }

  datatype Event =
    | CallRead(p: int, count: nat)
    | CallWrite(p: int, bytes: seq<byte>)
    | Step(p: int)
    | Signal(p: int)
    | Close(p: int, readEnd: bool)
    | Share(p: int, q: int)
    | SyncLock
    | SyncDone

  predicate Enabled(s: Pipe, e: Event) {
    match e
    case CallRead(p, _) => s.IsProc(p) && s.procs[p].code == User && s.procs[p].r
    case CallWrite(p, _) => s.IsProc(p) && s.procs[p].code == User && s.procs[p].w
    case Step(p) => s.IsProc(p) && s.procs[p].code != User && s.procs[p].chan == Awake
    case Signal(p) => s.IsProc(p) && (s.procs[p].code.Read? || s.procs[p].code.Write?)
    case Close(p, readEnd) => s.IsProc(p) && s.procs[p].code == User && if readEnd then s.procs[p].r else s.procs[p].w
    case Share(p, q) => s.IsProc(p) && s.IsProc(q) && s.procs[p].code == User && s.procs[q].code == User
    // Only one process is in `sync` at a time, and it skips inodes that are locked or not in use.
    case SyncLock => s.sync == Away && !s.locked && s.i_count != 0
    case SyncDone => s.sync != Away
  }

  function Apply(s: Pipe, e: Event): Pipe
    requires Enabled(s, e)
  {
    match e
    case CallRead(p, count) => s.Set(p, Read(count), Awake)
    case CallWrite(p, bytes) => s.Set(p, Write(bytes), Awake)
    case Step(p) =>
      (match s.procs[p].code
       case User => s
       case Read(count) => ReadP(s, p, count)
       case Write(rest) => WriteP(s, p, rest)
       case ReadCopy(offset, count) => ReadDone(s, p, offset, count)
       case WriteCopy(offset, rest, n) => WriteDone(s, p, offset, rest, n))
    // A signal before, during or after one of these sleeps ends the call.
    case Signal(p) => s.Set(p, User, Awake)
    case Close(p, readEnd) => CloseF(s, p, readEnd)
    // A child inherits its parent's descriptors.
    case Share(p, q) =>
      s.(procs := s.procs[q := s.procs[q].(r := s.procs[q].r || s.procs[p].r, w := s.procs[q].w || s.procs[p].w)])
    case SyncLock => s.(locked := true, sync := Holding)
    case SyncDone => s.Prele(false, false).(sync := Away)
  }

  /** A reader's transfer while another process could read. */
  predicate Rivals(s: Pipe) {
    exists q :: 0 <= q < |s.procs| && s.procs[q].code.ReadCopy? && OthersHave(s, q, true)
  }

  predicate Unread(s: Pipe) {
    s.f_offset < |s.data|
  }

  /** `sync` has the inode, there is data to read and somebody to read it, and to share the read end with. */
  predicate SyncAtUnread(s: Pipe) {
    s.sync == Holding && Unread(s) && |s.procs| > 1 && exists r :: 0 <= r < |s.procs| && s.procs[r].r
  }

  /** A reader's transfer that will leave data. */
  predicate PartialRead(s: Pipe) {
    |s.procs| > 1 && exists q :: 0 <= q < |s.procs| && Leaves(s, s.procs[q].code)
  }

  predicate Leaves(s: Pipe, code: Code) {
    code.ReadCopy? && code.offset + code.count < |s.data|
  }

  /**
   What must not happen: that the write end is closed for good under a transfer with rivals or while
   `sync` has an inode with unread data; and that `sync` takes an inode, unlocked by such a close, under
   a transfer that will leave data.
   */
  predicate Careful(s: Pipe, e: Event) {
    match e
    case Close(p, readEnd) =>
      !readEnd && s.IsProc(p) && !OthersHave(s, p, false) ==> !Rivals(s) && !SyncAtUnread(s)
    case SyncLock => !PartialRead(s)
    case _ => true
  }

  /** A new pipe, both ends open. */
  ghost predicate Init(s: Pipe) {
    && s.data == [] && s.f_offset == 0 && !s.iread && !s.iwrite && !s.locked && !s.want && s.i_count == 2
    && s.sync == Away && s.accepted == [] && s.delivered == []
    && (exists p :: 0 <= p < |s.procs| && s.procs[p].r) && (exists p :: 0 <= p < |s.procs| && s.procs[p].w)
    && forall p :: 0 <= p < |s.procs| ==> s.procs[p].code == User && s.procs[p].chan == Awake
  }

  // What holds throughout.

  /** A transfer remembers where it started, and that is still where it has to be. */
  predicate TransferOk(s: Pipe, code: Code) {
    match code
    case ReadCopy(offset, _) => offset == s.f_offset < |s.data|
    case WriteCopy(offset, rest, n) => offset == |s.data| && n == Min(|rest|, PIPSIZ - offset)
    case _ => true
  }

  predicate InTransfer(code: Code) {
    code.ReadCopy? || code.WriteCopy?
  }

  predicate SleeperOk(s: Pipe, x: Proc) {
    match x.chan
    case Awake => true
    case OnLock => (x.code.Read? || x.code.Write?) && s.locked && s.want
    case OnSpace => x.code.Write? && |s.data| == PIPSIZ && s.iwrite && s.i_count >= 2
    case OnData => x.code.Read? && s.data == [] && s.iread && s.i_count >= 2
  }

  /** A process in a call has its end open. */
  predicate EndOk(x: Proc) {
    (x.code.Read? || x.code.ReadCopy? ==> x.r) && (x.code.Write? || x.code.WriteCopy? ==> x.w)
  }

  /** An end is closed, and nobody but `p` could read. */
  ghost predicate Solo(s: Pipe, p: int) {
    s.i_count < 2 && !OthersHave(s, p, true)
  }

  /** There is at most one transfer. It has the lock to itself, unless nobody is left to start another. */
  ghost predicate LockOk(s: Pipe) {
    && (s.sync == Holding ==> s.locked)
    && (s.locked ==> s.sync == Holding || exists p :: 0 <= p < |s.procs| && InTransfer(s.procs[p].code))
    && (forall p, q :: 0 <= p < |s.procs| && 0 <= q < |s.procs| && InTransfer(s.procs[p].code) && InTransfer(s.procs[q].code) ==> p == q)
    && (forall p :: 0 <= p < |s.procs| && InTransfer(s.procs[p].code) ==> (s.locked && s.sync == Away) || Solo(s, p))
  }

  /** No transfer will start any more, but those of a process that is alone. */
  ghost predicate NoMore(s: Pipe) {
    s.i_count < 2 && (|s.procs| == 1 || !Unread(s) || !Open(s, true) || LastRead(s))
  }

  ghost predicate LastRead(s: Pipe) {
    exists p :: 0 <= p < |s.procs| && s.procs[p].code.ReadCopy? && !Leaves(s, s.procs[p].code)
  }

  ghost predicate SyncOk(s: Pipe) {
    (s.sync == Overrun ==> NoMore(s)) && (s.sync == Holding ==> !PartialRead(s))
  }

  ghost predicate ContentsOk(s: Pipe) {
    s.f_offset <= |s.data| <= PIPSIZ && s.accepted == s.delivered + s.data[s.f_offset..]
  }

  ghost predicate Open(s: Pipe, readEnd: bool) {
    exists p :: 0 <= p < |s.procs| && (if readEnd then s.procs[p].r else s.procs[p].w)
  }

  /** `i_count` counts the ends that somebody has open. */
  ghost predicate CountOk(s: Pipe) {
    s.i_count == (if Open(s, true) then 1 else 0) + (if Open(s, false) then 1 else 0)
  }

  predicate ProcOk(s: Pipe, x: Proc) {
    TransferOk(s, x.code) && SleeperOk(s, x) && EndOk(x)
  }

  ghost predicate ProcsOk(s: Pipe) {
    forall p :: 0 <= p < |s.procs| ==> ProcOk(s, s.procs[p])
  }

  ghost predicate Inv(s: Pipe) {
    ContentsOk(s) && LockOk(s) && SyncOk(s) && CountOk(s) && ProcsOk(s)
  }

  // The lock.

  /** Whoever finds the lock free and may start a transfer is alone in doing so. */
  lemma {:induction false} NobodyElse(s: Pipe, p: int)
    requires LockOk(s) && !s.locked && s.IsProc(p) && !InTransfer(s.procs[p].code) && (s.i_count >= 2 || s.procs[p].r)
    ensures forall q :: s.IsProc(q) ==> !InTransfer(s.procs[q].code)
  {
    if q :| s.IsProc(q) && InTransfer(s.procs[q].code) {
      assert Solo(s, q);
      assert OthersHave(s, q, true);
    }
  }

  lemma {:induction false} StartsTransfer(s: Pipe, t: Pipe, p: int)
    requires LockOk(s) && !s.locked && t.locked && s.IsProc(p) && |t.procs| == |s.procs|
    requires t.sync == s.sync && (s.sync == Away || Solo(t, p))
    requires !InTransfer(s.procs[p].code) && (s.i_count >= 2 || s.procs[p].r)
    requires InTransfer(t.procs[p].code) && forall q :: s.IsProc(q) && q != p ==> t.procs[q].code == s.procs[q].code
    ensures LockOk(t)
  {
    hide Solo;
    NobodyElse(s, p);
  }

  lemma {:induction false} EndsTransfer(s: Pipe, t: Pipe, p: int)
    requires LockOk(s) && s.IsProc(p) && InTransfer(s.procs[p].code) && !t.locked && |t.procs| == |s.procs| && t.sync != Holding
    requires !InTransfer(t.procs[p].code) && forall q :: s.IsProc(q) && q != p ==> t.procs[q].code == s.procs[q].code
    ensures LockOk(t)
  {
    hide Solo;
  }

  /** Nobody can newly read, and no end is opened. */
  ghost predicate NoNewReader(s: Pipe, t: Pipe) {
    |t.procs| == |s.procs| && t.i_count <= s.i_count && forall q :: s.IsProc(q) ==> s.IsProc(q) && (t.procs[q].r ==> s.procs[q].r)
  }

  lemma {:induction false} StaysSolo(s: Pipe, t: Pipe, p: int)
    requires NoNewReader(s, t) && Solo(s, p)
    ensures Solo(t, p)
  {
    if OthersHave(t, p, true) {
      var q :| 0 <= q < |t.procs| && q != p && t.procs[q].r;
      assert s.IsProc(q);
    }
  }

  lemma {:induction false} NoTransferYet(s: Pipe, t: Pipe)
    requires LockOk(s) && t.locked == s.locked && t.sync == s.sync && |t.procs| == |s.procs|
    requires forall q :: s.IsProc(q) ==> InTransfer(t.procs[q].code) == InTransfer(s.procs[q].code)
    requires forall q :: s.IsProc(q) && InTransfer(s.procs[q].code) && Solo(s, q) ==> Solo(t, q)
    ensures LockOk(t)
  {
    hide Solo;
    if t.locked && t.sync != Holding {
      var p :| 0 <= p < |s.procs| && InTransfer(s.procs[p].code);
      assert s.IsProc(p);
    }
    forall p | 0 <= p < |t.procs| && InTransfer(t.procs[p].code) ensures (t.locked && t.sync == Away) || Solo(t, p) {
      assert s.IsProc(p);
    }
  }

  lemma {:induction false} NoTransfer(s: Pipe, t: Pipe)
    requires LockOk(s) && t.locked == s.locked && t.sync == s.sync && NoNewReader(s, t)
    requires forall q :: s.IsProc(q) ==> InTransfer(t.procs[q].code) == InTransfer(s.procs[q].code)
    ensures LockOk(t)
  {
    hide Solo, LockOk;
    forall p | s.IsProc(p) && InTransfer(s.procs[p].code) && Solo(s, p) ensures Solo(t, p) {
      StaysSolo(s, t, p);
    }
    NoTransferYet(s, t);
  }

  /** The same contents and transfers, and no end newly open. */
  ghost predicate SameTransfers(s: Pipe, t: Pipe) {
    && |t.procs| == |s.procs| && t.data == s.data && t.f_offset == s.f_offset && t.i_count <= s.i_count
    && (forall q :: s.IsProc(q) ==> t.procs[q].code == s.procs[q].code || !(InTransfer(s.procs[q].code) || InTransfer(t.procs[q].code)))
    && (Open(t, true) ==> Open(s, true))
  }

  lemma {:induction false} SyncStays(s: Pipe, t: Pipe)
    requires SyncOk(s) && SameTransfers(s, t) && t.sync == s.sync
    ensures SyncOk(t)
  {
    hide Open;
    if LastRead(s) {
      var p :| 0 <= p < |s.procs| && s.procs[p].code.ReadCopy? && !Leaves(s, s.procs[p].code);
      assert s.IsProc(p) && t.procs[p].code == s.procs[p].code;
    }
    if PartialRead(t) {
      var q :| 0 <= q < |t.procs| && Leaves(t, t.procs[q].code);
      assert s.IsProc(q) && Leaves(s, s.procs[q].code);
    }
  }

  // The open ends.

  lemma {:induction false} SameEnds(s: Pipe, t: Pipe)
    requires SameFlags(s, t)
    ensures CountOk(s) ==> CountOk(t)
    ensures NoNewReader(s, t) && Open(t, true) == Open(s, true)
  {
    SameOpen(s, t, true);
    SameOpen(s, t, false);
  }

  lemma {:induction false} SameOpen(s: Pipe, t: Pipe, readEnd: bool)
    requires SameFlags(s, t)
    ensures Open(t, readEnd) == Open(s, readEnd)
  {
    if Open(s, readEnd) {
      var q :| 0 <= q < |s.procs| && (if readEnd then s.procs[q].r else s.procs[q].w);
      assert s.IsProc(q);
    }
    if Open(t, readEnd) {
      var q :| 0 <= q < |t.procs| && (if readEnd then t.procs[q].r else t.procs[q].w);
      assert s.IsProc(q);
    }
  }

  // Every event keeps the invariant.

  /** Waiting for the lock, in either call. */
  lemma {:induction false} LockedKeeps(s: Pipe, p: int, code: Code)
    requires Inv(s) && s.IsProc(p) && s.procs[p].code == code && s.procs[p].chan == Awake && s.locked
    requires code.Read? || code.Write?
    ensures Inv(s.(want := true).Set(p, code, OnLock))
  {
    hide LockOk, CountOk, SyncOk, Open;
    var t := s.(want := true).Set(p, code, OnLock);
    SameEnds(s, t);
    NoTransfer(s, t);
    SyncStays(s, t);
    forall q | t.IsProc(q) ensures ProcOk(t, t.procs[q]) {
      assert ProcOk(s, s.procs[q]);
    }
  }

  /** With `sync` overrun, only a process that is alone starts a transfer. */
  lemma {:induction false} OverrunIsAlone(s: Pipe, p: int)
    requires Inv(s) && s.IsProc(p) && !s.locked && !InTransfer(s.procs[p].code) && s.sync != Away
    requires s.i_count >= 2 || (s.procs[p].r && Unread(s))
    ensures s.sync == Overrun && |s.procs| == 1 && s.i_count < 2
  {
    hide CountOk, ContentsOk, ProcsOk;
    NobodyElse(s, p);
    assert s.IsProc(p);
  }

  lemma {:induction false} StartProcs(s: Pipe, p: int, code: Code)
    requires ProcsOk(s) && s.IsProc(p) && !s.locked && TransferOk(s, code) && EndOk(s.procs[p].(code := code))
    ensures ProcsOk(s.(locked := true).Set(p, code, Awake))
  {
    var t := s.(locked := true).Set(p, code, Awake);
    forall q | t.IsProc(q) ensures ProcOk(t, t.procs[q]) {
      assert ProcOk(s, s.procs[q]);
    }
  }

  lemma {:induction false} StartKeeps(s: Pipe, p: int, code: Code)
    requires Inv(s) && s.IsProc(p) && !s.locked && InTransfer(code) && TransferOk(s, code)
    requires !InTransfer(s.procs[p].code) && (s.i_count >= 2 || (s.procs[p].r && Unread(s)))
    requires EndOk(s.procs[p].(code := code))
    ensures Inv(s.(locked := true).Set(p, code, Awake))
  {
    hide LockOk, CountOk, Open, ProcsOk, EndOk, TransferOk, NoNewReader;
    var t := s.(locked := true).Set(p, code, Awake);
    if s.sync != Away {
      OverrunIsAlone(s, p);
    }
    StartsTransfer(s, t, p);
    SameEnds(s, t);
    StartProcs(s, p, code);
  }

  lemma {:induction false} ReadEmptyProcs(s: Pipe, p: int, count: nat)
    requires Inv(s) && s.IsProc(p) && s.procs[p].code == Read(count) && !s.locked && s.f_offset == |s.data|
    ensures ProcsOk(ReadP(s, p, count))
  {
    hide LockOk, CountOk;
    var t := ReadP(s, p, count);
    assert ProcOk(s, s.procs[p]);
    NobodyElse(s, p);
    forall q | t.IsProc(q) ensures ProcOk(t, t.procs[q]) {
      assert ProcOk(s, s.procs[q]);
    }
  }

  lemma {:induction false} ReadEmptyLock(s: Pipe, p: int, count: nat)
    requires Inv(s) && s.IsProc(p) && s.procs[p].code == Read(count) && !s.locked && s.f_offset == |s.data|
    ensures LockOk(ReadP(s, p, count)) && SyncOk(ReadP(s, p, count))
  {
    hide CountOk, ContentsOk, Open, Solo;
    assert ProcOk(s, s.procs[p]);
    NobodyElse(s, p);
    var t := ReadP(s, p, count);
    assert forall q :: t.IsProc(q) ==> !InTransfer(t.procs[q].code);
  }

  lemma {:induction false} ReadEmptyKeeps(s: Pipe, p: int, count: nat)
    requires Inv(s) && s.IsProc(p) && s.procs[p].code == Read(count) && !s.locked && s.f_offset == |s.data|
    ensures Inv(ReadP(s, p, count))
  {
    hide CountOk, ProcsOk, NoNewReader, Open, Solo, SameFlags, Woken;
    ReadEmptyProcs(s, p, count);
    ReadEmptyLock(s, p, count);
    var t := ReadP(s, p, count);
    assert s.data[s.f_offset..] == [];
    SameEnds(s, t);
  }

  lemma {:induction false} ReadPKeeps(s: Pipe, p: int, count: nat)
    requires Inv(s) && s.IsProc(p) && s.procs[p].code == Read(count) && s.procs[p].chan == Awake
    ensures Inv(ReadP(s, p, count))
  {
    hide LockOk, CountOk;
    assert ProcOk(s, s.procs[p]);
    if s.locked {
      LockedKeeps(s, p, Read(count));
    } else if s.f_offset == |s.data| {
      ReadEmptyKeeps(s, p, count);
    } else {
      StartKeeps(s, p, ReadCopy(s.f_offset, count));
    }
  }

  /** The transfer's process unlocks the inode, whosever lock that is. */
  lemma {:induction false} ReadDoneSync(s: Pipe, p: int, offset: nat, count: nat)
    requires Inv(s) && s.IsProc(p) && s.procs[p].code == ReadCopy(offset, count)
    ensures SyncOk(ReadDone(s, p, offset, count))
  {
    hide CountOk, Open, Woken, SameFlags, OthersHave;
    assert ProcOk(s, s.procs[p]);
    var t := ReadDone(s, p, offset, count);
    if s.sync != Away && |s.procs| > 1 {
      assert Solo(s, p) && s.procs[p].r;
      assert Open(s, true) by {
        SomeReader(s, p);
      }
      assert !Leaves(s, s.procs[p].code) by {
        OnlyRead(s, p);
      }
    }
  }

  lemma {:induction false} SomeReader(s: Pipe, p: int)
    requires s.IsProc(p) && s.procs[p].r
    ensures Open(s, true)
  {
  }

  lemma {:induction false} OnlyRead(s: Pipe, p: int)
    requires LockOk(s) && SyncOk(s) && s.sync != Away && |s.procs| > 1 && s.IsProc(p) && s.procs[p].code.ReadCopy?
    requires Unread(s) && Open(s, true)
    ensures !Leaves(s, s.procs[p].code)
  {
    hide Open, Solo;
    if s.sync == Overrun {
      var q :| 0 <= q < |s.procs| && s.procs[q].code.ReadCopy? && !Leaves(s, s.procs[q].code);
      assert q == p;
    }
  }

  lemma {:induction false} ReadDoneProcs(s: Pipe, p: int, offset: nat, count: nat)
    requires Inv(s) && s.IsProc(p) && s.procs[p].code == ReadCopy(offset, count)
    ensures ProcsOk(ReadDone(s, p, offset, count))
  {
    hide CountOk, Solo, Window, ContentsOk;
    var t := ReadDone(s, p, offset, count);
    forall q | t.IsProc(q) ensures ProcOk(t, t.procs[q]) {
      assert ProcOk(s, s.procs[q]);
    }
  }

  lemma {:induction false} ReadDoneContents(s: Pipe, p: int, offset: nat, count: nat)
    requires ContentsOk(s) && s.IsProc(p) && offset == s.f_offset
    ensures ContentsOk(ReadDone(s, p, offset, count))
  {
    hide Woken, SameFlags;
    var got := Window(s.data, offset, count);
    assert s.data[offset..] == got + s.data[offset + |got|..];
  }

  lemma {:induction false} ReadDoneKeeps(s: Pipe, p: int, offset: nat, count: nat)
    requires Inv(s) && s.IsProc(p) && s.procs[p].code == ReadCopy(offset, count)
    ensures Inv(ReadDone(s, p, offset, count))
  {
    hide CountOk, LockOk, SyncOk, ContentsOk, SameFlags, NoNewReader, Open, Window;
    var t := ReadDone(s, p, offset, count);
    assert ProcOk(s, s.procs[p]);
    ReadDoneSync(s, p, offset, count);
    ReadDoneContents(s, p, offset, count);
    EndsTransfer(s, t, p);
    SameEnds(s, t);
    ReadDoneProcs(s, p, offset, count);
  }

  /** While the lock is free nobody waits for it. */
  lemma {:induction false} NobodyToWake(s: Pipe)
    requires ProcsOk(s) && !s.locked
    ensures Woken(s.procs, s.want, false, false) == s.procs
  {
    var w := Woken(s.procs, s.want, false, false);
    forall q | 0 <= q < |s.procs| ensures w[q] == s.procs[q] {
      assert ProcOk(s, s.procs[q]);
    }
  }

  lemma {:induction false} WriteStopsProcs(s: Pipe, p: int, rest: seq<byte>)
    requires ProcsOk(s) && s.IsProc(p) && s.procs[p].code == Write(rest) && !s.locked
    requires rest == [] || s.i_count < 2 || |s.data| == PIPSIZ
    ensures ProcsOk(WriteP(s, p, rest))
  {
    hide SameFlags, Woken;
    NobodyToWake(s);
    var t := WriteP(s, p, rest);
    forall q | t.IsProc(q) ensures ProcOk(t, t.procs[q]) {
      assert ProcOk(s, s.procs[q]);
    }
  }

  lemma {:induction false} WriteStopsKeeps(s: Pipe, p: int, rest: seq<byte>)
    requires Inv(s) && s.IsProc(p) && s.procs[p].code == Write(rest) && !s.locked
    requires rest == [] || s.i_count < 2 || |s.data| == PIPSIZ
    ensures Inv(WriteP(s, p, rest))
  {
    hide CountOk, ProcsOk, SyncOk, SameFlags, NoNewReader, Open, Solo;
    var t := WriteP(s, p, rest);
    assert s.sync != Holding;
    SameEnds(s, t);
    NoTransfer(s, t);
    SyncStays(s, t);
    WriteStopsProcs(s, p, rest);
  }

  lemma {:induction false} WritePKeeps(s: Pipe, p: int, rest: seq<byte>)
    requires Inv(s) && s.IsProc(p) && s.procs[p].code == Write(rest) && s.procs[p].chan == Awake
    ensures Inv(WriteP(s, p, rest))
  {
    hide LockOk, CountOk;
    assert ProcOk(s, s.procs[p]);
    if s.locked {
      LockedKeeps(s, p, Write(rest));
    } else if rest == [] || s.i_count < 2 || |s.data| == PIPSIZ {
      WriteStopsKeeps(s, p, rest);
    } else {
      StartKeeps(s, p, WriteCopy(|s.data|, rest, Max(0, Min(|rest|, PIPSIZ - |s.data|))));
    }
  }

  lemma {:induction false} Appended(c: seq<byte>, from: nat, chunk: seq<byte>)
    requires from <= |c|
    ensures Overlay(c, |c|, chunk) == c + chunk && (c + chunk)[from..] == c[from..] + chunk
  {
  }

  lemma {:induction false} WriteDoneProcs(s: Pipe, p: int, offset: nat, rest: seq<byte>, n: nat)
    requires Inv(s) && s.IsProc(p) && s.procs[p].code == WriteCopy(offset, rest, n)
    ensures ProcsOk(WriteDone(s, p, offset, rest, n))
  {
    hide CountOk, Overlay, Solo;
    var t := WriteDone(s, p, offset, rest, n);
    assert ProcOk(s, s.procs[p]);
    Appended(s.data, s.f_offset, rest[..n]);
    forall q | t.IsProc(q) ensures ProcOk(t, t.procs[q]) {
      assert ProcOk(s, s.procs[q]);
    }
  }

  lemma {:induction false} WriteDoneSync(s: Pipe, p: int, offset: nat, rest: seq<byte>, n: nat)
    requires Inv(s) && s.IsProc(p) && s.procs[p].code == WriteCopy(offset, rest, n)
    ensures SyncOk(WriteDone(s, p, offset, rest, n))
  {
    hide Overlay, Woken, OthersHave, ContentsOk;
    assert ProcOk(s, s.procs[p]);
    var t := WriteDone(s, p, offset, rest, n);
    if s.sync != Away {
      assert Solo(s, p);
      OneEndLeft(s, p);
      SameEnds(s, t);
    }
  }

  lemma {:induction false} OneEndLeft(s: Pipe, p: int)
    requires CountOk(s) && s.i_count < 2 && s.IsProc(p) && s.procs[p].w
    ensures !Open(s, true)
  {
    assert Open(s, false);
  }

  lemma {:induction false} WriteDoneKeeps(s: Pipe, p: int, offset: nat, rest: seq<byte>, n: nat)
    requires Inv(s) && s.IsProc(p) && s.procs[p].code == WriteCopy(offset, rest, n)
    ensures Inv(WriteDone(s, p, offset, rest, n))
  {
    hide CountOk, LockOk, SyncOk, Overlay, SameFlags, NoNewReader, Open;
    var t := WriteDone(s, p, offset, rest, n);
    assert ProcOk(s, s.procs[p]);
    WriteDoneSync(s, p, offset, rest, n);
    Appended(s.data, s.f_offset, rest[..n]);
    EndsTransfer(s, t, p);
    SameEnds(s, t);
    WriteDoneProcs(s, p, offset, rest, n);
  }

  lemma {:induction false} CallProcs(s: Pipe, p: int, code: Code)
    requires ProcsOk(s) && s.IsProc(p) && !InTransfer(code) && EndOk(s.procs[p].(code := code))
    ensures ProcsOk(s.Set(p, code, Awake))
  {
    var t := s.Set(p, code, Awake);
    forall q | t.IsProc(q) ensures ProcOk(t, t.procs[q]) {
      assert ProcOk(s, s.procs[q]);
    }
  }

  lemma {:induction false} CallKeeps(s: Pipe, p: int, code: Code)
    requires Inv(s) && s.IsProc(p) && !InTransfer(s.procs[p].code) && !InTransfer(code) && EndOk(s.procs[p].(code := code))
    ensures Inv(s.Set(p, code, Awake))
  {
    hide LockOk, CountOk, SyncOk, Open, ProcsOk, EndOk;
    var t := s.Set(p, code, Awake);
    CallProcs(s, p, code);
    SameEnds(s, t);
    NoTransfer(s, t);
    SyncStays(s, t);
  }

  /** What the other end's openers count stays, and this end's follows what `p` leaves behind. */
  lemma {:induction false} CloseCounts(s: Pipe, p: int, readEnd: bool)
    requires CountOk(s) && s.IsProc(p) && (if readEnd then s.procs[p].r else s.procs[p].w)
    ensures CountOk(CloseF(s, p, readEnd)) && NoNewReader(s, CloseF(s, p, readEnd))
    ensures Open(CloseF(s, p, readEnd), true) ==> Open(s, true)
    ensures readEnd && !OthersHave(s, p, true) ==> !Open(CloseF(s, p, readEnd), true)
  {
    var t := CloseF(s, p, readEnd);
    assert Open(s, readEnd);
    OtherEnd(s, t, p, readEnd);
    if OthersHave(s, p, readEnd) {
      var q :| 0 <= q < |s.procs| && q != p && (if readEnd then s.procs[q].r else s.procs[q].w);
      assert if readEnd then t.procs[q].r else t.procs[q].w;
      assert Open(t, readEnd);
    } else {
      LastClosed(s, t, p, readEnd);
    }
  }

  lemma {:induction false} LastClosed(s: Pipe, t: Pipe, p: int, readEnd: bool)
    requires s.IsProc(p) && !OthersHave(s, p, readEnd) && |t.procs| == |s.procs|
    requires forall q :: s.IsProc(q) && q != p ==> t.procs[q].r == s.procs[q].r && t.procs[q].w == s.procs[q].w
    requires if readEnd then !t.procs[p].r else !t.procs[p].w
    ensures !Open(t, readEnd)
  {
    forall q | 0 <= q < |t.procs| ensures !(if readEnd then t.procs[q].r else t.procs[q].w) {
      if q != p {
        assert s.IsProc(q);
        assert !(if readEnd then s.procs[q].r else s.procs[q].w);
      }
    }
  }

  lemma {:induction false} OtherEnd(s: Pipe, t: Pipe, p: int, readEnd: bool)
    requires |t.procs| == |s.procs|
    requires forall q :: s.IsProc(q) ==> if readEnd then t.procs[q].w == s.procs[q].w else t.procs[q].r == s.procs[q].r
    ensures Open(t, !readEnd) == Open(s, !readEnd)
  {
    if Open(s, !readEnd) {
      var q :| 0 <= q < |s.procs| && (if !readEnd then s.procs[q].r else s.procs[q].w);
      assert s.IsProc(q);
    }
    if Open(t, !readEnd) {
      var q :| 0 <= q < |t.procs| && (if !readEnd then t.procs[q].r else t.procs[q].w);
      assert s.IsProc(q);
    }
  }

  lemma {:induction false} SleepersOfProcs(s: Pipe)
    requires ProcsOk(s)
    ensures SleepersOk(s)
  {
    hide TransferOk, SleeperOk, EndOk;
    forall p | 0 <= p < |s.procs| ensures SleeperOk(s, s.procs[p]) {
      assert ProcOk(s, s.procs[p]);
    }
  }

  lemma {:induction false} CloseProcs(s: Pipe, p: int, readEnd: bool)
    requires ProcsOk(s) && Enabled(s, Close(p, readEnd))
    ensures ProcsOk(CloseF(s, p, readEnd))
  {
    hide OthersHave, SleeperOk;
    SleepersOfProcs(s);
    CloseSleepers(s, p, readEnd);
    var t := CloseF(s, p, readEnd);
    forall q | t.IsProc(q) ensures ProcOk(t, t.procs[q]) {
      assert ProcOk(s, s.procs[q]);
    }
  }

  lemma {:induction false} NoWriterLeft(s: Pipe, p: int, q: int)
    requires ProcsOk(s) && Enabled(s, Close(p, false)) && !OthersHave(s, p, false) && s.IsProc(q) && s.procs[q].code != User
    ensures s.procs[q].code.Read? || s.procs[q].code.ReadCopy?
  {
    assert ProcOk(s, s.procs[q]);
    assert s.procs[q].w ==> q == p;
  }

  /** Who is in a transfer when an end is closed for good is left without anybody who could start another. */
  lemma {:induction false} LastCloseLeavesSolo(s: Pipe, p: int, readEnd: bool, q: int)
    requires Inv(s) && Enabled(s, Close(p, readEnd)) && Careful(s, Close(p, readEnd)) && !OthersHave(s, p, readEnd)
    requires s.IsProc(q) && InTransfer(s.procs[q].code)
    ensures Solo(CloseF(s, p, readEnd), q)
  {
    hide LockOk, CountOk;
    var t := CloseF(s, p, readEnd);
    CountIsSmall(s);
    if !readEnd {
      NoWriterLeft(s, p, q);
      assert !OthersHave(s, q, true);
    }
    forall x | 0 <= x < |t.procs| && x != q ensures !t.procs[x].r {
      assert !s.procs[x].r || (readEnd && x == p);
    }
  }

  lemma {:induction false} CloseLock(s: Pipe, p: int, readEnd: bool)
    requires Inv(s) && Enabled(s, Close(p, readEnd)) && Careful(s, Close(p, readEnd))
    ensures LockOk(CloseF(s, p, readEnd))
  {
    hide CountOk, ProcsOk, OthersHave, Solo;
    var t := CloseF(s, p, readEnd);
    CloseCounts(s, p, readEnd);
    if OthersHave(s, p, readEnd) {
      NoTransfer(s, t);
    } else {
      forall q | 0 <= q < |t.procs| && InTransfer(t.procs[q].code) ensures Solo(t, q) {
        assert s.IsProc(q);
        LastCloseLeavesSolo(s, p, readEnd, q);
      }
    }
  }

  lemma {:induction false} CloseSync(s: Pipe, p: int, readEnd: bool)
    requires Inv(s) && Enabled(s, Close(p, readEnd)) && Careful(s, Close(p, readEnd))
    ensures SyncOk(CloseF(s, p, readEnd))
  {
    hide CountOk, ProcsOk, OthersHave, LockOk, Open, Rivals;
    var t := CloseF(s, p, readEnd);
    CloseCounts(s, p, readEnd);
    CountIsSmall(s);
    if t.sync == s.sync {
      SyncStays(s, t);
    } else if !readEnd && Open(t, true) {
      assert exists r :: 0 <= r < |s.procs| && s.procs[r].r by {
        ReaderOf(s);
      }
    }
  }

  lemma {:induction false} ReaderOf(s: Pipe)
    requires Open(s, true)
    ensures exists r :: 0 <= r < |s.procs| && s.procs[r].r
  {
  }

  lemma {:induction false} CloseKeeps(s: Pipe, p: int, readEnd: bool)
    requires Inv(s) && Enabled(s, Close(p, readEnd)) && Careful(s, Close(p, readEnd))
    ensures Inv(CloseF(s, p, readEnd))
  {
    hide LockOk, CountOk, ProcsOk, OthersHave, SyncOk;
    CloseCounts(s, p, readEnd);
    CloseProcs(s, p, readEnd);
    CloseLock(s, p, readEnd);
    CloseSync(s, p, readEnd);
  }

  lemma {:induction false} ShareOpens(s: Pipe, t: Pipe, p: int, q: int, readEnd: bool)
    requires Enabled(s, Share(p, q)) && t == Apply(s, Share(p, q))
    ensures Open(t, readEnd) == Open(s, readEnd)
  {
    if Open(s, readEnd) {
      var x :| 0 <= x < |s.procs| && (if readEnd then s.procs[x].r else s.procs[x].w);
      assert if readEnd then t.procs[x].r else t.procs[x].w;
    }
    if Open(t, readEnd) {
      var x :| 0 <= x < |t.procs| && (if readEnd then t.procs[x].r else t.procs[x].w);
      assert if readEnd then s.procs[x].r || s.procs[p].r else s.procs[x].w || s.procs[p].w;
    }
  }

  lemma {:induction false} ShareStaysSolo(s: Pipe, p: int, q: int, x: int)
    requires Enabled(s, Share(p, q)) && s.IsProc(x) && InTransfer(s.procs[x].code) && Solo(s, x)
    ensures Solo(Apply(s, Share(p, q)), x)
  {
    var t := Apply(s, Share(p, q));
    assert !s.procs[p].r && !s.procs[q].r;
    assert forall y :: 0 <= y < |t.procs| && y != x ==> !t.procs[y].r;
  }

  lemma {:induction false} ShareLock(s: Pipe, p: int, q: int)
    requires LockOk(s) && Enabled(s, Share(p, q))
    ensures LockOk(Apply(s, Share(p, q)))
  {
    hide Solo, LockOk;
    var t := Apply(s, Share(p, q));
    forall x | s.IsProc(x) && InTransfer(s.procs[x].code) && Solo(s, x) ensures Solo(t, x) {
      ShareStaysSolo(s, p, q, x);
    }
    NoTransferYet(s, t);
  }

  lemma {:induction false} ShareKeeps(s: Pipe, p: int, q: int)
    requires Inv(s) && Enabled(s, Share(p, q))
    ensures Inv(Apply(s, Share(p, q)))
  {
    hide LockOk, SyncOk, Open;
    var t := Apply(s, Share(p, q));
    ShareLock(s, p, q);
    ShareOpens(s, t, p, q, true);
    ShareOpens(s, t, p, q, false);
    SyncStays(s, t);
    forall x | t.IsProc(x) ensures ProcOk(t, t.procs[x]) {
      assert ProcOk(s, s.procs[x]);
    }
  }

  lemma {:induction false} SyncLockKeeps(s: Pipe)
    requires Inv(s) && Enabled(s, SyncLock) && Careful(s, SyncLock)
    ensures Inv(Apply(s, SyncLock))
  {
    hide CountOk, Solo;
    var t := Apply(s, SyncLock);
    SameEnds(s, t);
    forall p | 0 <= p < |t.procs| && InTransfer(t.procs[p].code) ensures Solo(t, p) {
      assert s.IsProc(p);
      StaysSolo(s, t, p);
    }
    forall q | t.IsProc(q) ensures ProcOk(t, t.procs[q]) {
      assert ProcOk(s, s.procs[q]);
    }
  }

  lemma {:induction false} SyncDoneLock(s: Pipe)
    requires Inv(s) && Enabled(s, SyncDone)
    ensures LockOk(Apply(s, SyncDone))
  {
    hide CountOk, Solo, ProcsOk, SyncOk, ContentsOk;
    var t := Apply(s, SyncDone);
    SameEnds(s, t);
    forall p | 0 <= p < |t.procs| && InTransfer(t.procs[p].code) ensures Solo(t, p) {
      assert s.IsProc(p);
      StaysSolo(s, t, p);
    }
  }

  lemma {:induction false} SyncDoneKeeps(s: Pipe)
    requires Inv(s) && Enabled(s, SyncDone)
    ensures Inv(Apply(s, SyncDone))
  {
    hide CountOk, LockOk;
    var t := Apply(s, SyncDone);
    SyncDoneLock(s);
    SameEnds(s, t);
    forall q | t.IsProc(q) ensures ProcOk(t, t.procs[q]) {
      assert ProcOk(s, s.procs[q]);
    }
  }

  lemma {:induction false} EventKeeps(s: Pipe, e: Event)
    requires Inv(s) && Enabled(s, e) && Careful(s, e)
    ensures Inv(Apply(s, e))
  {
    hide Inv, ReadP, ReadDone, WriteP, WriteDone, CloseF;
    match e
    case CallRead(p, count) => CallKeeps(s, p, Read(count));
    case CallWrite(p, bytes) => CallKeeps(s, p, Write(bytes));
    case Signal(p) => CallKeeps(s, p, User);
    case Close(p, readEnd) => CloseKeeps(s, p, readEnd);
    case Share(p, q) => ShareKeeps(s, p, q);
    case SyncLock => SyncLockKeeps(s);
    case SyncDone => SyncDoneKeeps(s);
    case Step(p) =>
      match s.procs[p].code
      case User =>
      case Read(count) => ReadPKeeps(s, p, count);
      case Write(rest) => WritePKeeps(s, p, rest);
      case ReadCopy(offset, count) => ReadDoneKeeps(s, p, offset, count);
      case WriteCopy(offset, rest, n) => WriteDoneKeeps(s, p, offset, rest, n);
  }

  // Whole runs.

  ghost predicate Run(s: Pipe, es: seq<Event>, t: Pipe, careful: bool)
    decreases |es|
  {
    if es == [] then t == s
    else Enabled(s, es[0]) && (careful ==> Careful(s, es[0])) && Run(Apply(s, es[0]), es[1..], t, careful)
  }

  lemma {:induction false} RunKeeps(s: Pipe, es: seq<Event>, t: Pipe)
    requires Inv(s) && Run(s, es, t, true)
    ensures Inv(t)
    decreases |es|
  {
    hide Inv, Apply, Enabled, Careful;
    if es != [] {
      EventKeeps(s, es[0]);
      RunKeeps(Apply(s, es[0]), es[1..], t);
    }
  }

  lemma {:induction false} InitInv(s: Pipe)
    requires Init(s)
    ensures Inv(s)
  {
    assert Open(s, true) && Open(s, false);
  }

  lemma {:induction false} Reachable(s0: Pipe, es: seq<Event>, s: Pipe)
    requires Init(s0) && Run(s0, es, s, true)
    ensures Inv(s)
  {
    hide Run, Inv, Init;
    InitInv(s0);
    RunKeeps(s0, es, s);
  }

  /** The readers receive, in order, what the writers wrote; what is missing is still in the pipe, which never overflows. */
  lemma {:induction false} DeliveredIsPrefix(s0: Pipe, es: seq<Event>, s: Pipe)
    requires Init(s0) && Run(s0, es, s, true)
    ensures s.delivered <= s.accepted && s.f_offset <= |s.data| <= PIPSIZ
    ensures s.accepted == s.delivered + s.data[s.f_offset..]
  {
    hide Run;
    Reachable(s0, es, s);
  }

  /** Transfers are kept apart: by the lock, which is then not `sync`'s, or once an end is closed, by there being nobody for another. */
  lemma {:induction false} OneTransferAtATime(s0: Pipe, es: seq<Event>, s: Pipe, p: int, q: int)
    requires Init(s0) && Run(s0, es, s, true) && s.IsProc(p) && s.IsProc(q)
    requires InTransfer(s.procs[p].code) && InTransfer(s.procs[q].code)
    ensures p == q && ((s.locked && s.sync == Away) || Solo(s, p))
  {
    hide Run, Solo;
    Reachable(s0, es, s);
  }

  // What calls get through.

  predicate Writing(code: Code) {
    code.Write? || code.WriteCopy?
  }

  predicate Reading(code: Code) {
    code.Read? || code.ReadCopy?
  }

  /** What is still to be written in a call. */
  function ToWrite(code: Code): seq<byte> {
    if Writing(code) then code.rest else []
  }

  predicate CallOf(e: Event, p: int) {
    (e.CallRead? || e.CallWrite?) && e.p == p
  }

  /** What an event adds to a history. */
  function Added(before: seq<byte>, after: seq<byte>): seq<byte> {
    if |before| <= |after| then after[|before|..] else []
  }

  /** The bytes that `p`'s own steps put into the pipe in a run from `s`. */
  ghost function PutBy(s: Pipe, es: seq<Event>, p: int): seq<byte>
    decreases |es|
  {
    if es == [] || !Enabled(s, es[0]) then []
    else
      var t := Apply(s, es[0]);
      (if es[0] == Step(p) then Added(s.accepted, t.accepted) else []) + PutBy(t, es[1..], p)
  }

  /** The bytes that `p`'s own steps take out of it. */
  ghost function GotBy(s: Pipe, es: seq<Event>, p: int): seq<byte>
    decreases |es|
  {
    if es == [] || !Enabled(s, es[0]) then []
    else
      var t := Apply(s, es[0]);
      (if es[0] == Step(p) then Added(s.delivered, t.delivered) else []) + GotBy(t, es[1..], p)
  }

  /** Only `p`'s own place in its call may have changed. */
  ghost predicate CodesKept(s: Pipe, t: Pipe, p: int) {
    |t.procs| == |s.procs| && forall q :: s.IsProc(q) && q != p ==> t.procs[q].code == s.procs[q].code
  }

  lemma {:induction false} ReadPMoves(s: Pipe, p: int, count: nat)
    requires s.IsProc(p) && s.procs[p].code == Read(count)
    ensures var t := ReadP(s, p, count);
      && CodesKept(s, t, p) && t.accepted == s.accepted && t.delivered == s.delivered
      && (t.procs[p].code == Read(count) || t.procs[p].code == ReadCopy(s.f_offset, count)
          || (t.procs[p].code == User && s.i_count < 2))
  {
    hide SameFlags;
  }

  lemma {:induction false} ReadDoneMoves(s: Pipe, p: int, offset: nat, count: nat)
    requires s.IsProc(p)
    ensures var t := ReadDone(s, p, offset, count);
      && CodesKept(s, t, p) && t.accepted == s.accepted && t.procs[p].code == User
      && t.delivered == s.delivered + Window(s.data, offset, count)
  {
    hide SameFlags, Window;
  }

  lemma {:induction false} WritePMoves(s: Pipe, p: int, rest: seq<byte>)
    requires s.IsProc(p) && s.procs[p].code == Write(rest)
    ensures var t := WriteP(s, p, rest);
      && CodesKept(s, t, p) && t.accepted == s.accepted && t.delivered == s.delivered
      && ((Writing(t.procs[p].code) && ToWrite(t.procs[p].code) == rest)
          || (t.procs[p].code == User && (rest == [] || s.i_count < 2)))
  {
    hide SameFlags;
  }

  lemma {:induction false} WriteDoneMoves(s: Pipe, p: int, offset: nat, rest: seq<byte>, n: nat)
    requires s.IsProc(p)
    ensures var t := WriteDone(s, p, offset, rest, n); var chunk := rest[..Min(n, |rest|)];
      && CodesKept(s, t, p) && t.delivered == s.delivered && t.accepted == s.accepted + chunk
      && t.procs[p].code == Write(rest[|chunk|..])
  {
    hide SameFlags, Overlay;
  }

  /** A step of a process, seen from outside: what it adds to the histories, and where it stands then. */
  lemma {:induction false} StepMoves(s: Pipe, p: int)
    requires Enabled(s, Step(p))
    ensures var t := Apply(s, Step(p)); var code := s.procs[p].code;
      && CodesKept(s, t, p)
      && (Writing(code) ==> t.delivered == s.delivered && WriteMoved(s, t, p))
      && (Reading(code) ==> t.accepted == s.accepted && ReadMoved(s, t, p))
  {
    hide ReadP, ReadDone, WriteP, WriteDone, SameFlags, CodesKept, Window;
    match s.procs[p].code
    case User =>
    case Read(count) => ReadPMoves(s, p, count);
    case Write(rest) => WritePMoves(s, p, rest);
    case ReadCopy(offset, count) => ReadDoneMoves(s, p, offset, count);
    case WriteCopy(offset, rest, n) => WriteDoneMoves(s, p, offset, rest, n);
  }

  /** What goes into the pipe comes off the front of what is still to be written. */
  ghost predicate WriteMoved(s: Pipe, t: Pipe, p: int)
    requires s.IsProc(p) && |t.procs| == |s.procs|
  {
    var rest, code := ToWrite(s.procs[p].code), t.procs[p].code;
    if code == User then t.accepted == s.accepted && (rest == [] || s.i_count < 2)
    else (
      && Writing(code) && |ToWrite(code)| <= |rest|
      && t.accepted == s.accepted + rest[..|rest| - |ToWrite(code)|] && ToWrite(code) == rest[|rest| - |ToWrite(code)|..])
  }

  ghost predicate ReadMoved(s: Pipe, t: Pipe, p: int)
    requires s.IsProc(p) && |t.procs| == |s.procs|
  {
    var was, code := s.procs[p].code, t.procs[p].code;
    if was.ReadCopy? then code == User && t.delivered == s.delivered + Window(s.data, was.offset, was.count)
    else (
      && t.delivered == s.delivered
      && (if code == User then s.i_count < 2 else Reading(code) && CountOf(code) == CountOf(was)))
  }

  function CountOf(code: Code): nat {
    if Reading(code) then code.count else 0
  }

  lemma {:induction false} OthersLeaveCode(s: Pipe, e: Event, p: int)
    requires Enabled(s, e) && s.IsProc(p) && e != Step(p) && e != Signal(p) && !CallOf(e, p)
    ensures |Apply(s, e).procs| == |s.procs| && Apply(s, e).procs[p].code == s.procs[p].code
  {
    hide OthersHave, SameFlags, ReadP, WriteP, ReadDone, WriteDone;
    if e.Step? {
      StepMoves(s, e.p);
    }
  }

  /** A step of a write call. */
  lemma {:induction false} WriteStep(s: Pipe, p: int)
    requires Enabled(s, Step(p)) && Writing(s.procs[p].code)
    ensures var t := Apply(s, Step(p));
      && |t.procs| == |s.procs|
      && (t.procs[p].code == User || Writing(t.procs[p].code))
      && (Writing(t.procs[p].code) ==> Added(s.accepted, t.accepted) + ToWrite(t.procs[p].code) == ToWrite(s.procs[p].code))
      && (t.procs[p].code == User ==>
            Added(s.accepted, t.accepted) == [] && (s.i_count >= 2 ==> ToWrite(s.procs[p].code) == []))
  {
    hide Apply;
    StepMoves(s, p);
    var t := Apply(s, Step(p));
    if Writing(t.procs[p].code) {
      var rest := ToWrite(s.procs[p].code);
      var chunk := rest[..|rest| - |ToWrite(t.procs[p].code)|];
      assert Added(s.accepted, s.accepted + chunk) == chunk;
    }
  }

  /** A process in no call, and making none. */
  lemma {:induction false} NothingInUser(s: Pipe, p: int, es: seq<Event>, t: Pipe, careful: bool)
    requires s.IsProc(p) && s.procs[p].code == User && Run(s, es, t, careful)
    requires forall i :: 0 <= i < |es| ==> !CallOf(es[i], p)
    ensures |t.procs| == |s.procs| && t.procs[p].code == User && t.i_count <= s.i_count
    ensures PutBy(s, es, p) == [] && GotBy(s, es, p) == []
    decreases |es|
  {
    hide Apply, Careful;
    if es != [] {
      assert !CallOf(es[0], p);
      assert forall i :: 0 <= i < |es[1..]| ==> es[1..][i] == es[i + 1];
      OthersLeaveCode(s, es[0], p);
      FewerOpen(s, es[0]);
      NothingInUser(Apply(s, es[0]), p, es[1..], t, careful);
    }
  }

  /**
   What a call has put into the pipe, and what it still has to write, are together what it was given. It
   returns with all of that in the pipe, unless the read end was closed for good or a signal came.
   */
  lemma {:induction false} CallWrites(s: Pipe, p: int, es: seq<Event>, t: Pipe, careful: bool)
    requires s.IsProc(p) && Writing(s.procs[p].code) && Run(s, es, t, careful)
    requires forall i :: 0 <= i < |es| ==> !CallOf(es[i], p)
    ensures |t.procs| == |s.procs| && t.i_count <= s.i_count
    ensures Writing(t.procs[p].code) ==> PutBy(s, es, p) + ToWrite(t.procs[p].code) == ToWrite(s.procs[p].code)
    ensures !Writing(t.procs[p].code) ==>
      && t.procs[p].code == User && PutBy(s, es, p) <= ToWrite(s.procs[p].code)
      && (t.i_count >= 2 && Signal(p) !in es ==> PutBy(s, es, p) == ToWrite(s.procs[p].code))
    decreases |es|
  {
    hide Apply, Careful, Enabled, ToWrite, PutBy, Added;
    if es == [] {
      NothingPut(s, p);
    } else {
      var e, u := es[0], Apply(s, es[0]);
      assert !CallOf(e, p);
      assert forall i :: 0 <= i < |es[1..]| ==> es[1..][i] == es[i + 1];
      FewerOpen(s, e);
      WriteEvent(s, e, p);
      PutMore(s, es, p);
      var put := if e == Step(p) then Added(s.accepted, u.accepted) else [];
      if Writing(u.procs[p].code) {
        CallWrites(u, p, es[1..], t, careful);
        assert Signal(p) !in es ==> Signal(p) !in es[1..];
        Prepended(put, PutBy(u, es[1..], p), ToWrite(t.procs[p].code), ToWrite(u.procs[p].code));
      } else {
        NothingInUser(u, p, es[1..], t, careful);
        assert put + [] == [];
      }
    }
  }

  lemma {:induction false} NothingPut(s: Pipe, p: int)
    ensures PutBy(s, [], p) == [] && forall x: seq<byte> :: PutBy(s, [], p) + x == x
  {
  }

  lemma {:induction false} PutMore(s: Pipe, es: seq<Event>, p: int)
    requires es != [] && Enabled(s, es[0])
    ensures var u := Apply(s, es[0]);
      PutBy(s, es, p) == (if es[0] == Step(p) then Added(s.accepted, u.accepted) else []) + PutBy(u, es[1..], p)
  {
    hide Apply, Enabled, Added;
  }

  lemma {:induction false} Prepended(put: seq<byte>, later: seq<byte>, left: seq<byte>, all: seq<byte>)
    ensures later + left == all ==> (put + later) + left == put + all
    ensures later <= all ==> put + later <= put + all
  {
    assert (put + later) + left == put + (later + left);
  }

  lemma {:induction false} WriteEvent(s: Pipe, e: Event, p: int)
    requires Enabled(s, e) && s.IsProc(p) && Writing(s.procs[p].code) && !CallOf(e, p)
    ensures var t := Apply(s, e);
      var put := if e == Step(p) then Added(s.accepted, t.accepted) else [];
      && |t.procs| == |s.procs|
      && (t.procs[p].code == User || Writing(t.procs[p].code))
      && (Writing(t.procs[p].code) ==> put + ToWrite(t.procs[p].code) == ToWrite(s.procs[p].code))
      && (t.procs[p].code == User ==> put == [] && (s.i_count >= 2 && e != Signal(p) ==> ToWrite(s.procs[p].code) == []))
  {
    hide ReadP, ReadDone, WriteP, WriteDone, CloseF;
    if e == Step(p) {
      WriteStep(s, p);
    } else if e != Signal(p) {
      OthersLeaveCode(s, e, p);
    }
  }

  /** The same from the call on. */
  lemma {:induction false} WriteCallIsWritten(s: Pipe, p: int, bytes: seq<byte>, es: seq<Event>, t: Pipe, careful: bool)
    requires Enabled(s, CallWrite(p, bytes)) && Run(Apply(s, CallWrite(p, bytes)), es, t, careful)
    requires forall i :: 0 <= i < |es| ==> !CallOf(es[i], p)
    ensures t.IsProc(p)
    ensures var put := PutBy(Apply(s, CallWrite(p, bytes)), es, p);
      if Writing(t.procs[p].code) then put + ToWrite(t.procs[p].code) == bytes
      else put <= bytes && (t.i_count >= 2 && Signal(p) !in es ==> put == bytes)
  {
    hide Run;
    CallWrites(Apply(s, CallWrite(p, bytes)), p, es, t, careful);
  }

  /** A transfer fills the pipe or writes all there is. */
  lemma {:induction false} TransferFills(s: Pipe, p: int)
    requires Inv(s) && s.IsProc(p) && s.procs[p].code.WriteCopy? && s.procs[p].chan == Awake
    ensures var t := Apply(s, Step(p)); |t.procs| == |s.procs| && (ToWrite(t.procs[p].code) == [] || |t.data| == PIPSIZ)
  {
    hide SameFlags, Woken, LockOk, CountOk, SyncOk;
    assert ProcOk(s, s.procs[p]);
  }

  // Reading.

  lemma {:induction false} ReadStep(s: Pipe, p: int)
    requires Enabled(s, Step(p)) && Reading(s.procs[p].code)
    ensures var t := Apply(s, Step(p)); var code := s.procs[p].code; var got := Added(s.delivered, t.delivered);
      && |t.procs| == |s.procs|
      && (t.procs[p].code == User || (Reading(t.procs[p].code) && CountOf(t.procs[p].code) == CountOf(code)))
      && (Reading(t.procs[p].code) ==> got == [])
      && (t.procs[p].code == User ==> if code.Read? then got == [] && s.i_count < 2
                                      else |got| == Max(0, Min(code.count, |s.data| - code.offset)))
  {
    hide Apply, Window;
    StepMoves(s, p);
    var code := s.procs[p].code;
    if code.ReadCopy? {
      WindowLength(s.data, code.offset, code.count);
      var got := Window(s.data, code.offset, code.count);
      assert Added(s.delivered, s.delivered + got) == got;
    }
  }

  lemma {:induction false} ReadEvent(s: Pipe, e: Event, p: int)
    requires Enabled(s, e) && s.IsProc(p) && Reading(s.procs[p].code) && !CallOf(e, p)
    ensures var t := Apply(s, e); var count := CountOf(s.procs[p].code);
      var got := if e == Step(p) then Added(s.delivered, t.delivered) else [];
      && |t.procs| == |s.procs|
      && (t.procs[p].code == User || (Reading(t.procs[p].code) && CountOf(t.procs[p].code) == count))
      && (Reading(t.procs[p].code) ==> got == [])
      && (t.procs[p].code == User ==>
            |got| <= count && (Inv(s) && count > 0 && s.i_count >= 2 && e != Signal(p) ==> got != []))
  {
    hide ReadP, ReadDone, WriteP, WriteDone, CloseF, LockOk, CountOk, SyncOk, ContentsOk;
    if e == Step(p) {
      ReadStep(s, p);
      assert Inv(s) ==> ProcOk(s, s.procs[p]);
    } else if e != Signal(p) {
      OthersLeaveCode(s, e, p);
    }
  }

  lemma {:induction false} CallReads(s: Pipe, p: int, es: seq<Event>, t: Pipe, careful: bool)
    requires s.IsProc(p) && Reading(s.procs[p].code) && Run(s, es, t, careful) && (careful ==> Inv(s))
    requires forall i :: 0 <= i < |es| ==> !CallOf(es[i], p)
    ensures |t.procs| == |s.procs| && t.i_count <= s.i_count
    ensures Reading(t.procs[p].code) ==> GotBy(s, es, p) == [] && CountOf(t.procs[p].code) == CountOf(s.procs[p].code)
    ensures !Reading(t.procs[p].code) ==>
      && t.procs[p].code == User && |GotBy(s, es, p)| <= CountOf(s.procs[p].code)
      && (careful && CountOf(s.procs[p].code) > 0 && t.i_count >= 2 && Signal(p) !in es ==> GotBy(s, es, p) != [])
    decreases |es|
  {
    hide Apply, Careful, Enabled, Inv;
    if es != [] {
      var e, u := es[0], Apply(s, es[0]);
      assert !CallOf(e, p);
      assert forall i :: 0 <= i < |es[1..]| ==> es[1..][i] == es[i + 1];
      FewerOpen(s, e);
      ReadEvent(s, e, p);
      if careful {
        EventKeeps(s, e);
      }
      if Reading(u.procs[p].code) {
        CallReads(u, p, es[1..], t, careful);
      } else {
        NothingInUser(u, p, es[1..], t, careful);
      }
    }
  }

  /**
   A read delivers at most its count. While both ends are open it returns, but for a signal, only with
   something, if something was asked for.
   */
  lemma {:induction false} ReadCallDelivers(s0: Pipe, before: seq<Event>, s: Pipe, p: int, count: nat, es: seq<Event>, t: Pipe)
    requires Init(s0) && Run(s0, before, s, true) && Enabled(s, CallRead(p, count))
    requires Run(Apply(s, CallRead(p, count)), es, t, true) && forall i :: 0 <= i < |es| ==> !CallOf(es[i], p)
    ensures t.IsProc(p)
    ensures var got := GotBy(Apply(s, CallRead(p, count)), es, p);
      if Reading(t.procs[p].code) then got == []
      else |got| <= count && (count > 0 && t.i_count >= 2 && Signal(p) !in es ==> got != [])
  {
    hide Run, Init, Inv, Careful;
    Reachable(s0, before, s);
    CarefulCall(s, p, count);
    EventKeeps(s, CallRead(p, count));
    CallReads(Apply(s, CallRead(p, count)), p, es, t, true);
  }

  lemma {:induction false} CarefulCall(s: Pipe, p: int, count: nat)
    ensures Careful(s, CallRead(p, count))
  {
  }

  /** A read returns empty-handed by itself exactly when all has been read and nobody is left to write. */
  lemma {:induction false} EndOfFile(s: Pipe, p: int)
    requires Inv(s) && Enabled(s, Step(p)) && s.procs[p].code.Read?
    ensures var t := Apply(s, Step(p));
      && |t.procs| == |s.procs|
      && (t.procs[p].code == User <==> !s.locked && !Unread(s) && s.i_count < 2)
      && (t.procs[p].code.ReadCopy? <==> !s.locked && Unread(s))
      && (t.procs[p].code.Read? ==> t.procs[p].chan == if s.locked then OnLock else OnData)
  {
    hide SameFlags, Woken, LockOk, CountOk, SyncOk;
  }

  // One writer.

  /** The bytes of all write calls. */
  function Calls(es: seq<Event>): seq<byte> {
    if es == [] then [] else (if es[0].CallWrite? then es[0].bytes else []) + Calls(es[1..])
  }

  /** No process but `p` is in a write call. */
  ghost predicate OnlyWriter(s: Pipe, p: int) {
    s.IsProc(p) && forall q :: s.IsProc(q) && q != p ==> !Writing(s.procs[q].code)
  }

  predicate ByOneWriter(e: Event, p: int) {
    (e.CallWrite? ==> e.p == p) && e != Signal(p)
  }

  lemma {:induction false} StaysOnlyWriter(s: Pipe, e: Event, p: int)
    requires OnlyWriter(s, p) && Enabled(s, e) && ByOneWriter(e, p)
    ensures OnlyWriter(Apply(s, e), p)
  {
    hide Apply, Enabled, CallOf, Writing;
    FewerOpen(s, e);
    var t := Apply(s, e);
    SameNumber(s, e);
    forall q | s.IsProc(q) && q != p ensures !Writing(t.procs[q].code) {
      OtherStaysOff(s, e, q, p);
    }
  }

  lemma {:induction false} SameNumber(s: Pipe, e: Event)
    requires Enabled(s, e)
    ensures |Apply(s, e).procs| == |s.procs|
  {
    hide OthersHave, SameFlags, ReadP, ReadDone, WriteP, WriteDone, Woken;
    if e.Step? {
      StepMoves(s, e.p);
    }
  }

  lemma {:induction false} OtherStaysOff(s: Pipe, e: Event, q: int, p: int)
    requires Enabled(s, e) && ByOneWriter(e, p) && s.IsProc(q) && q != p && !Writing(s.procs[q].code)
    ensures |Apply(s, e).procs| == |s.procs| && !Writing(Apply(s, e).procs[q].code)
  {
    hide OthersHave, SameFlags, ReadP, ReadDone, WriteP, WriteDone, CloseF;
    if e == Step(q) {
      StepMoves(s, q);
    } else if e != Signal(q) && !CallOf(e, q) {
      OthersLeaveCode(s, e, q);
    }
  }

  lemma {:induction false} OthersAcceptNothing(s: Pipe, e: Event, p: int)
    requires OnlyWriter(s, p) && Enabled(s, e) && e != Step(p)
    ensures Apply(s, e).accepted == s.accepted
  {
    hide OthersHave, SameFlags, ReadP, ReadDone, WriteP, WriteDone, Woken;
    if e.Step? {
      StepMoves(s, e.p);
    }
  }

  lemma {:induction false} OneWriterEvent(s: Pipe, e: Event, p: int)
    requires OnlyWriter(s, p) && Enabled(s, e) && ByOneWriter(e, p) && Apply(s, e).i_count >= 2
    ensures var t := Apply(s, e); var bytes := if e.CallWrite? then e.bytes else [];
      t.IsProc(p) && t.accepted + ToWrite(t.procs[p].code) == s.accepted + ToWrite(s.procs[p].code) + bytes
  {
    hide OthersHave, SameFlags, ReadP, ReadDone, WriteP, WriteDone, CloseF;
    FewerOpen(s, e);
    if e == Step(p) {
      OneWriterSteps(s, p);
    } else {
      OthersAcceptNothing(s, e, p);
      if !CallOf(e, p) {
        OthersLeaveCode(s, e, p);
      }
    }
  }

  lemma {:induction false} OneWriterSteps(s: Pipe, p: int)
    requires Enabled(s, Step(p)) && s.i_count >= 2
    ensures var t := Apply(s, Step(p));
      t.IsProc(p) && t.accepted + ToWrite(t.procs[p].code) == s.accepted + ToWrite(s.procs[p].code)
  {
    hide Apply;
    StepMoves(s, p);
    var t := Apply(s, Step(p));
    if Writing(s.procs[p].code) && Writing(t.procs[p].code) {
      var rest := ToWrite(s.procs[p].code);
      var n := |rest| - |ToWrite(t.procs[p].code)|;
      assert rest[..n] + rest[n..] == rest;
    }
  }

  lemma {:induction false} OneWriterRun(s: Pipe, p: int, es: seq<Event>, t: Pipe, careful: bool)
    requires OnlyWriter(s, p) && Run(s, es, t, careful) && t.i_count >= 2
    requires forall i :: 0 <= i < |es| ==> ByOneWriter(es[i], p)
    ensures t.IsProc(p) && t.accepted + ToWrite(t.procs[p].code) == s.accepted + ToWrite(s.procs[p].code) + Calls(es)
    ensures s.i_count >= 2
    decreases |es|
  {
    hide Apply, Careful, Enabled, OnlyWriter, ToWrite;
    if es == [] {
      OnlyWriterIsProc(s, p);
      assert s.accepted + ToWrite(s.procs[p].code) + [] == s.accepted + ToWrite(s.procs[p].code);
    } else {
      var e, u := es[0], Apply(s, es[0]);
      assert ByOneWriter(e, p);
      assert forall i :: 0 <= i < |es[1..]| ==> es[1..][i] == es[i + 1];
      StaysOnlyWriter(s, e, p);
      FewerOpen(s, e);
      OneWriterRun(u, p, es[1..], t, careful);
      OneWriterEvent(s, e, p);
    }
  }

  lemma {:induction false} OnlyWriterIsProc(s: Pipe, p: int)
    requires OnlyWriter(s, p)
    ensures s.IsProc(p)
  {
  }

  /**
   With one writer, which no signal disturbs, and both ends open, what went into the pipe and what is
   still to be written are just the bytes of its calls, in their order.
   */
  lemma {:induction false} OneWriterWritesAll(s0: Pipe, p: int, es: seq<Event>, t: Pipe, careful: bool)
    requires Init(s0) && s0.IsProc(p) && Run(s0, es, t, careful) && t.i_count >= 2
    requires forall i :: 0 <= i < |es| ==> ByOneWriter(es[i], p)
    ensures t.IsProc(p) && t.accepted + ToWrite(t.procs[p].code) == Calls(es)
  {
    hide Run;
    OneWriterRun(s0, p, es, t, careful);
  }

  // Sleepers, in all runs.

  ghost predicate SleepersOk(s: Pipe) {
    forall p :: 0 <= p < |s.procs| ==> SleeperOk(s, s.procs[p])
  }

  /** With both ends open everything is in order; afterwards nobody sleeps for data or space. */
  ghost predicate WeakInv(s: Pipe) {
    CountOk(s) && SleepersOk(s) && (s.i_count >= 2 ==> Inv(s))
  }

  lemma {:induction false} StepSleepers(s: Pipe, p: int)
    requires SleepersOk(s) && s.i_count < 2 && Enabled(s, Step(p))
    ensures SleepersOk(Apply(s, Step(p)))
  {
    hide Overlay, Window, SameFlags, ReadP, ReadDone, WriteP, WriteDone;
    match s.procs[p].code
    case User =>
    case Read(count) => ReadPSleepers(s, p, count);
    case Write(rest) => WritePSleepers(s, p, rest);
    case ReadCopy(offset, count) => ReadDoneSleepers(s, p, offset, count);
    case WriteCopy(offset, rest, n) => WriteDoneSleepers(s, p, offset, rest, n);
  }

  lemma {:induction false} ReadPSleepers(s: Pipe, p: int, count: nat)
    requires SleepersOk(s) && s.i_count < 2 && s.IsProc(p)
    ensures SleepersOk(ReadP(s, p, count))
  {
    hide SameFlags;
    var t := ReadP(s, p, count);
    forall q | 0 <= q < |t.procs| ensures SleeperOk(t, t.procs[q]) {
      assert SleeperOk(s, s.procs[q]);
    }
  }

  lemma {:induction false} WritePSleepers(s: Pipe, p: int, rest: seq<byte>)
    requires SleepersOk(s) && s.i_count < 2 && s.IsProc(p)
    ensures SleepersOk(WriteP(s, p, rest))
  {
    hide SameFlags;
    var t := WriteP(s, p, rest);
    forall q | 0 <= q < |t.procs| ensures SleeperOk(t, t.procs[q]) {
      assert SleeperOk(s, s.procs[q]);
    }
  }

  lemma {:induction false} ReadDoneSleepers(s: Pipe, p: int, offset: nat, count: nat)
    requires SleepersOk(s) && s.i_count < 2 && s.IsProc(p)
    ensures SleepersOk(ReadDone(s, p, offset, count))
  {
    hide SameFlags, Window;
    var t := ReadDone(s, p, offset, count);
    forall q | 0 <= q < |t.procs| ensures SleeperOk(t, t.procs[q]) {
      assert SleeperOk(s, s.procs[q]);
    }
  }

  lemma {:induction false} WriteDoneSleepers(s: Pipe, p: int, offset: nat, rest: seq<byte>, n: nat)
    requires SleepersOk(s) && s.i_count < 2 && s.IsProc(p)
    ensures SleepersOk(WriteDone(s, p, offset, rest, n))
  {
    hide SameFlags, Overlay;
    var t := WriteDone(s, p, offset, rest, n);
    forall q | 0 <= q < |t.procs| ensures SleeperOk(t, t.procs[q]) {
      assert SleeperOk(s, s.procs[q]);
    }
  }

  lemma {:induction false} CloseSleepers(s: Pipe, p: int, readEnd: bool)
    requires SleepersOk(s) && Enabled(s, Close(p, readEnd))
    ensures SleepersOk(CloseF(s, p, readEnd))
  {
    hide OthersHave;
    var t := CloseF(s, p, readEnd);
    forall q | 0 <= q < |t.procs| ensures SleeperOk(t, t.procs[q]) {
      assert SleeperOk(s, s.procs[q]);
    }
  }

  /** Events with one end closed for good, whatever happens to the lock. */
  lemma {:induction false} HalfClosedSleepers(s: Pipe, e: Event)
    requires SleepersOk(s) && s.i_count < 2 && Enabled(s, e)
    ensures SleepersOk(Apply(s, e))
  {
    hide ReadP, ReadDone, WriteP, WriteDone, CloseF;
    match e
    case Step(p) => StepSleepers(s, p);
    case Close(p, readEnd) => CloseSleepers(s, p, readEnd);
    case _ =>
      var t := Apply(s, e);
      forall q | 0 <= q < |t.procs| ensures SleeperOk(t, t.procs[q]) {
        assert SleeperOk(s, s.procs[q]);
      }
  }

  lemma {:induction false} PreleSameFlags(s: Pipe)
    ensures SameFlags(s, s.Prele(false, false).(sync := Away))
  {
  }

  lemma {:induction false} FewerOpen(s: Pipe, e: Event)
    requires Enabled(s, e)
    ensures Apply(s, e).i_count <= s.i_count
    ensures !e.Close? && !e.Share? ==> SameFlags(s, Apply(s, e))
  {
    hide Woken, ReadP, ReadDone, WriteP, WriteDone, OthersHave, Pipe.Prele;
    if e.SyncDone? {
      PreleSameFlags(s);
    } else if e.Close? {
      CloseFewer(s, e.p, e.readEnd);
    }
  }

  lemma {:induction false} CloseFewer(s: Pipe, p: int, readEnd: bool)
    requires s.IsProc(p)
    ensures CloseF(s, p, readEnd).i_count <= s.i_count
  {
    hide OthersHave, Woken;
  }

  lemma {:induction false} CountsKeep(s: Pipe, e: Event)
    requires CountOk(s) && Enabled(s, e)
    ensures CountOk(Apply(s, e)) && Apply(s, e).i_count <= s.i_count
  {
    hide CountOk, OthersHave, ReadP, ReadDone, WriteP, WriteDone, CloseF, SameFlags;
    FewerOpen(s, e);
    match e {
      case Close(p, readEnd) => CloseCounts(s, p, readEnd);
      case Share(p, q) => SharedCount(s, p, q);
      case _ => SameEnds(s, Apply(s, e));
    }
  }

  lemma {:induction false} SharedCount(s: Pipe, p: int, q: int)
    requires CountOk(s) && Enabled(s, Share(p, q))
    ensures CountOk(Apply(s, Share(p, q)))
  {
    hide Open;
    ShareOpens(s, Apply(s, Share(p, q)), p, q, true);
    ShareOpens(s, Apply(s, Share(p, q)), p, q, false);
  }

  lemma {:induction false} CountIsSmall(s: Pipe)
    requires CountOk(s)
    ensures 0 <= s.i_count <= 2
  {
    hide Open;
  }

  lemma {:induction false} WeakKeeps(s: Pipe, e: Event)
    requires WeakInv(s) && Enabled(s, e)
    ensures WeakInv(Apply(s, e))
  {
    hide CountOk, Open, LockOk, SyncOk, ContentsOk, Apply, Careful, OthersHave;
    CountsKeep(s, e);
    CountIsSmall(s);
    if s.i_count < 2 {
      HalfClosedSleepers(s, e);
    } else if Careful(s, e) {
      EventKeeps(s, e);
    } else {
      CarelessIsLastClose(s, e);
      CloseSleepers(s, e.p, e.readEnd);
    }
  }

  /** With both ends open nothing but a last close can be careless. */
  lemma {:induction false} CarelessIsLastClose(s: Pipe, e: Event)
    requires Inv(s) && s.i_count >= 2 && Enabled(s, e) && !Careful(s, e)
    ensures e.Close? && Apply(s, e) == CloseF(s, e.p, e.readEnd) && Apply(s, e).i_count == s.i_count - 1
  {
    hide CountOk, ProcsOk, SyncOk, ContentsOk, LockOk, Rivals, SyncAtUnread, PartialRead;
    if PartialRead(s) {
      TransferIsLocked(s);
    }
  }

  lemma {:induction false} TransferIsLocked(s: Pipe)
    requires LockOk(s) && s.i_count >= 2 && PartialRead(s)
    ensures s.locked
  {
    hide OthersHave;
    var q :| 0 <= q < |s.procs| && Leaves(s, s.procs[q].code);
    assert InTransfer(s.procs[q].code);
  }

  lemma {:induction false} WeakRun(s: Pipe, es: seq<Event>, t: Pipe)
    requires WeakInv(s) && Run(s, es, t, false)
    ensures WeakInv(t)
    decreases |es|
  {
    hide WeakInv, Apply, Enabled, Careful;
    if es != [] {
      WeakKeeps(s, es[0]);
      WeakRun(Apply(s, es[0]), es[1..], t);
    }
  }

  /**
   Nobody waits for data while somebody waits for space, nor for anything but the lock once an end is
   closed. This holds in all runs, whenever ends are closed.
   */
  lemma {:induction false} NoDeadlock(s0: Pipe, es: seq<Event>, s: Pipe, p: int, q: int)
    requires Init(s0) && Run(s0, es, s, false) && s.IsProc(p) && s.IsProc(q)
    ensures !(s.procs[p].chan == OnData && s.procs[q].chan == OnSpace)
    ensures s.i_count < 2 ==> s.procs[p].chan != OnData && s.procs[p].chan != OnSpace
    ensures s.procs[p].chan == OnData ==> s.data == [] && s.iread
    ensures s.procs[p].chan == OnSpace ==> |s.data| == PIPSIZ && s.iwrite
    ensures s.procs[p].chan == OnLock ==> s.locked && s.want
  {
    hide Run, Init, CountOk, ContentsOk, LockOk, SyncOk;
    InitInv(s0);
    assert SleepersOk(s0);
    WeakRun(s0, es, s);
    assert SleeperOk(s, s.procs[p]) && SleeperOk(s, s.procs[q]);
  }

  // Why these events must not happen.

  /** Everything there is in the pipe goes to `r`. */
  function AllRead(s: Pipe, r: int): Pipe
    requires s.IsProc(r) && s.f_offset <= |s.data|
  {
    s.(f_offset := |s.data|, delivered := s.delivered + s.data[s.f_offset..]).Set(r, User, Awake)
  }

  lemma {:induction false} RunMore(s: Pipe, e: Event, es: seq<Event>, t: Pipe) returns (more: seq<Event>)
    requires Enabled(s, e) && Careful(s, e) && Run(Apply(s, e), es, t, true)
    ensures more == [e] + es && Run(s, more, t, true)
  {
    more := [e] + es;
    assert more[1..] == es;
  }

  lemma {:induction false} NobodyWoken(procs: seq<Proc>)
    ensures Woken(procs, false, false, false) == procs
  {
    assert forall q :: 0 <= q < |procs| ==> Woken(procs, false, false, false)[q] == procs[q];
  }

  lemma {:induction false} ReaderReads(s: Pipe, r: int, rest: seq<Event>, t: Pipe) returns (es: seq<Event>)
    requires s.IsProc(r) && s.procs[r].r && s.procs[r].code == User && !s.locked && !s.want && Unread(s) && s.sync != Holding
    requires Run(AllRead(s, r), rest, t, true)
    ensures Run(s, es, t, true)
  {
    hide Run, OthersHave;
    var n := |s.data|;
    var s1 := s.Set(r, Read(n), Awake);
    var s2 := s1.(locked := true).Set(r, ReadCopy(s.f_offset, n), Awake);
    assert Apply(s1, Step(r)) == s2;
    NobodyWoken(s2.procs);
    assert Window(s.data, s.f_offset, n) == s.data[s.f_offset..];
    assert Apply(s2, Step(r)) == AllRead(s, r) by {
      assert s2.procs[r := s2.procs[r].(code := User, chan := Awake)] == AllRead(s, r).procs;
    }
    es := RunMore(s2, Step(r), rest, t);
    es := RunMore(s1, Step(r), es, t);
    es := RunMore(s, CallRead(r, n), es, t);
  }

  /** The transfer that was overtaken ends, and delivers again or puts the offset back. */
  function Again(s: Pipe, q: int, offset: nat, count: nat): Pipe
    requires s.IsProc(q)
  {
    s.(f_offset := offset + |Window(s.data, offset, count)|, delivered := s.delivered + Window(s.data, offset, count))
     .Set(q, User, Awake)
  }

  /** `q` is in a transfer that does not hold the lock, and `r` could read. */
  ghost predicate Overtakable(s: Pipe, q: int, r: int) {
    && s.IsProc(q) && s.IsProc(r) && q != r && !s.locked && !s.want && s.sync != Holding
    && s.procs[q].code.ReadCopy? && s.procs[q].chan == Awake && s.procs[q].code.offset == s.f_offset < |s.data|
    && s.procs[r].r && s.procs[r].code == User
    && s.accepted == s.delivered + s.data[s.f_offset..]
  }

  lemma {:induction false} Stays(s: Pipe, careful: bool)
    ensures Run(s, [], s, careful)
  {
  }

  lemma {:induction false} OvertakenDeliversTwice(s: Pipe, q: int, r: int) returns (es: seq<Event>, t: Pipe)
    requires Overtakable(s, q, r)
    ensures Run(s, es, t, true) && !(t.delivered <= t.accepted)
  {
    hide Run, Window;
    var offset, count := s.procs[q].code.offset, s.procs[q].code.count;
    var a := AllRead(s, r);
    var b := Again(a, q, offset, count);
    var got := Window(s.data, offset, count);
    assert |got| == Max(0, Min(count, |s.data| - offset)) by {
      WindowLength(s.data, offset, count);
    }
    NobodyWoken(a.procs);
    assert Apply(a, Step(q)) == b by {
      assert a.procs[q := a.procs[q].(code := User, chan := Awake)] == b.procs;
    }
    if count > 0 {
      t := b;
      Stays(t, true);
      es := [];
    } else {
      t := AllRead(b, r);
      Stays(t, true);
      es := ReaderReads(b, r, [], t);
    }
    es := RunMore(a, Step(q), es, t);
    es := ReaderReads(s, r, es, t);
  }

  lemma {:induction false} WindowLength(c: seq<byte>, off: nat, count: nat)
    ensures |Window(c, off, count)| == Max(0, Min(count, |c| - off))
  {
  }

  lemma {:induction false} OneTransfer(s: Pipe, p: int, q: int)
    requires LockOk(s) && s.IsProc(p) && s.IsProc(q) && InTransfer(s.procs[p].code) && p != q
    ensures !InTransfer(s.procs[q].code)
  {
  }

  /** After the careless close; a reader in the middle of its call may be interrupted first. */
  lemma {:induction false} CarelessIsOvertakable(s: Pipe, p: int, q: int, r: int) returns (es: seq<Event>, t: Pipe)
    requires Inv(s) && Enabled(s, Close(p, false)) && !OthersHave(s, p, false)
    requires s.IsProc(q) && s.procs[q].code.ReadCopy? && s.IsProc(r) && r != q && s.procs[r].r
    ensures Run(CloseF(s, p, false), es, t, true) && !(t.delivered <= t.accepted)
  {
    hide Run, OthersHave;
    var c := CloseF(s, p, false);
    assert ProcOk(s, s.procs[q]) && ProcOk(s, s.procs[r]);
    if s.procs[r].code != User {
      NoWriterLeft(s, p, r);
      OneTransfer(s, q, r);
    }
    if c.procs[r].code == User {
      es, t := OvertakenDeliversTwice(c, q, r);
    } else {
      var u := c.Set(r, User, Awake);
      es, t := OvertakenDeliversTwice(u, q, r);
      es := RunMore(c, Signal(r), es, t);
    }
  }

  lemma {:induction false} CarelessHasTwo(s: Pipe) returns (q: int, r: int)
    requires Rivals(s)
    ensures s.IsProc(q) && s.procs[q].code.ReadCopy? && s.IsProc(r) && r != q && s.procs[r].r
  {
    q :| 0 <= q < |s.procs| && s.procs[q].code.ReadCopy? && OthersHave(s, q, true);
    r :| 0 <= r < |s.procs| && r != q && s.procs[r].r;
  }

  /** `sync` will unlock the inode whoever has it then, and two processes may read what is there. */
  ghost predicate TwoReaders(s: Pipe, x: int, y: int) {
    && s.IsProc(x) && s.IsProc(y) && x != y && !s.locked && !s.want && s.sync == Overrun && Unread(s)
    && s.procs[x].r && s.procs[x].code == User && s.procs[y].r && s.procs[y].code == User && s.procs[y].chan == Awake
    && s.accepted == s.delivered + s.data[s.f_offset..]
  }

  lemma {:induction false} SyncUnlocksTransfer(s: Pipe, x: int, y: int) returns (es: seq<Event>, t: Pipe)
    requires TwoReaders(s, x, y)
    ensures Run(s, es, t, true) && !(t.delivered <= t.accepted)
  {
    hide Run, OthersHave;
    var n := |s.data|;
    var s1 := s.Set(x, Read(n), Awake);
    var s2 := s1.(locked := true).Set(x, ReadCopy(s.f_offset, n), Awake);
    assert Apply(s1, Step(x)) == s2;
    NobodyWoken(s2.procs);
    var s3 := s2.(locked := false, sync := Away);
    assert Apply(s2, SyncDone) == s3;
    es, t := OvertakenDeliversTwice(s3, x, y);
    es := RunMore(s2, SyncDone, es, t);
    es := RunMore(s1, Step(x), es, t);
    es := RunMore(s, CallRead(x, n), es, t);
  }

  /** A process that could read, and another that is free to be given the read end. */
  ghost predicate ReaderAndHeir(s: Pipe, x: int, y: int) {
    && s.IsProc(x) && s.IsProc(y) && x != y && !s.locked && !s.want && s.sync == Overrun && Unread(s)
    && s.procs[x].r && Idle(s, x) && Idle(s, y)
    && s.accepted == s.delivered + s.data[s.f_offset..]
  }

  /** In no transfer and not a writer, so that a signal brings it back from its call. */
  predicate Idle(s: Pipe, p: int)
    requires s.IsProc(p)
  {
    s.procs[p].chan == Awake && (s.procs[p].code == User || s.procs[p].code.Read?)
  }

  lemma {:induction false} HeirReads(s: Pipe, x: int, y: int) returns (es: seq<Event>, t: Pipe)
    requires ReaderAndHeir(s, x, y) && s.procs[x].code == User && s.procs[y].code == User
    ensures Run(s, es, t, true) && !(t.delivered <= t.accepted)
  {
    hide Run, OthersHave;
    es, t := SyncUnlocksTransfer(Apply(s, Share(x, y)), x, y);
    es := RunMore(s, Share(x, y), es, t);
  }

  lemma {:induction false} HeirIsFreed(s: Pipe, x: int, y: int) returns (es: seq<Event>, t: Pipe)
    requires ReaderAndHeir(s, x, y) && s.procs[x].code == User
    ensures Run(s, es, t, true) && !(t.delivered <= t.accepted)
  {
    hide Run, OthersHave;
    if s.procs[y].code == User {
      es, t := HeirReads(s, x, y);
    } else {
      es, t := HeirReads(s.Set(y, User, Awake), x, y);
      es := RunMore(s, Signal(y), es, t);
    }
  }

  lemma {:induction false} OverrunDeliversTwice(s: Pipe, x: int, y: int) returns (es: seq<Event>, t: Pipe)
    requires ReaderAndHeir(s, x, y)
    ensures Run(s, es, t, true) && !(t.delivered <= t.accepted)
  {
    hide Run, OthersHave;
    if s.procs[x].code == User {
      es, t := HeirIsFreed(s, x, y);
    } else {
      es, t := HeirIsFreed(s.Set(x, User, Awake), x, y);
      es := RunMore(s, Signal(x), es, t);
    }
  }

  /** After a close for good while `sync` had the inode. */
  lemma {:induction false} CloseUnderSync(s: Pipe, p: int) returns (es: seq<Event>, t: Pipe)
    requires Inv(s) && Enabled(s, Close(p, false)) && !OthersHave(s, p, false) && SyncAtUnread(s)
    ensures Run(CloseF(s, p, false), es, t, true) && !(t.delivered <= t.accepted)
  {
    hide Run, OthersHave, LockOk, CountOk, SyncOk, Open;
    var c := CloseF(s, p, false);
    var x :| 0 <= x < |s.procs| && s.procs[x].r;
    var y := if x == 0 then 1 else 0;
    IdleAfterClose(s, p, x, x);
    IdleAfterClose(s, p, x, y);
    es, t := OverrunDeliversTwice(c, x, y);
  }

  lemma {:induction false} IdleAfterClose(s: Pipe, p: int, x: int, y: int)
    requires Inv(s) && Enabled(s, Close(p, false)) && !OthersHave(s, p, false) && s.sync == Holding
    requires s.IsProc(x) && s.procs[x].r && s.IsProc(y)
    ensures Idle(CloseF(s, p, false), y)
  {
    hide OthersHave, CountOk, Open, SyncOk, ContentsOk;
    assert ProcOk(s, s.procs[y]);
    if s.procs[y].code != User {
      NoWriterLeft(s, p, y);
    }
    BothOpen(s, x, p);
  }

  lemma {:induction false} BothOpen(s: Pipe, x: int, p: int)
    requires CountOk(s) && s.IsProc(x) && s.procs[x].r && s.IsProc(p) && s.procs[p].w
    ensures s.i_count == 2
  {
    assert Open(s, true) && Open(s, false);
  }

  lemma {:induction false} TransferUnlocksSync(s: Pipe, q: int, y: int)
    requires Inv(s) && Enabled(s, SyncLock) && s.IsProc(q) && Leaves(s, s.procs[q].code) && s.IsProc(y) && y != q
    ensures var c := Apply(s, SyncLock);
      ReaderAndHeir(ReadDone(c, q, s.procs[q].code.offset, s.procs[q].code.count), q, y) && s.procs[q].chan == Awake
  {
    hide OthersHave, LockOk, CountOk, SyncOk, Open, Window, SameFlags, Woken;
    NobodyToWake(s);
    assert ProcOk(s, s.procs[q]);
    OthersAreUsers(s, q, y);
    LeavesSome(s.data, s.procs[q].code.offset, s.procs[q].code.count);
  }

  /** After `sync` took the inode under a transfer: that unlocks it, leaving data, and its process can share. */
  lemma {:induction false} SyncUnderTransfer(s: Pipe) returns (es: seq<Event>, t: Pipe)
    requires Inv(s) && Enabled(s, SyncLock) && PartialRead(s)
    ensures Run(Apply(s, SyncLock), es, t, true) && !(t.delivered <= t.accepted)
  {
    hide Run, Inv, ReadDone, ReaderAndHeir;
    var c := Apply(s, SyncLock);
    var q :| 0 <= q < |s.procs| && Leaves(s, s.procs[q].code);
    var y := if q == 0 then 1 else 0;
    TransferUnlocksSync(s, q, y);
    es, t := OverrunDeliversTwice(ReadDone(c, q, s.procs[q].code.offset, s.procs[q].code.count), q, y);
    es := RunMore(c, Step(q), es, t);
  }

  lemma {:induction false} LeavesSome(data: seq<byte>, offset: nat, count: nat)
    requires offset + count < |data|
    ensures |Window(data, offset, count)| == count && Window(data, offset, count) + data[offset + count..] == data[offset..]
  {
  }

  lemma {:induction false} OthersAreUsers(s: Pipe, q: int, y: int)
    requires Inv(s) && !s.locked && s.IsProc(q) && s.procs[q].code.ReadCopy? && s.IsProc(y) && y != q
    ensures s.procs[y].code == User && s.procs[y].chan == Awake && s.procs[q].chan == Awake && s.procs[q].r
  {
    hide SyncOk, ContentsOk;
    assert ProcOk(s, s.procs[q]) && ProcOk(s, s.procs[y]);
    assert Solo(s, q) && !s.procs[y].r;
    assert s.procs[y].w ==> Open(s, false);
    assert Open(s, true);
  }

  /**
   The guard is the exact one. From any state that runs with it reach, an event is within the guard if
   and only if no such run after it ever delivers anything but a prefix of what was written.
   */
  lemma {:induction false} GuardIsExact(s0: Pipe, es: seq<Event>, s: Pipe, e: Event)
    requires Init(s0) && Run(s0, es, s, true) && Enabled(s, e)
    ensures Careful(s, e) <==> forall more, t :: Run(Apply(s, e), more, t, true) ==> t.delivered <= t.accepted
  {
    hide Run, Init, Careful, Inv, Apply, OthersHave;
    Reachable(s0, es, s);
    if Careful(s, e) {
      EventKeeps(s, e);
      forall more, t | Run(Apply(s, e), more, t, true) ensures t.delivered <= t.accepted {
        RunKeeps(Apply(s, e), more, t);
        PrefixOfInv(t);
      }
    } else {
      var more, t := CarelessBreaks(s, e);
      assert Run(Apply(s, e), more, t, true);
    }
  }

  lemma {:induction false} CarelessBreaks(s: Pipe, e: Event) returns (more: seq<Event>, t: Pipe)
    requires Inv(s) && Enabled(s, e) && !Careful(s, e)
    ensures Run(Apply(s, e), more, t, true) && !(t.delivered <= t.accepted)
  {
    hide Run, Inv, OthersHave, Rivals, SyncAtUnread, PartialRead, CloseF;
    if e.SyncLock? {
      more, t := SyncUnderTransfer(s);
    } else if Rivals(s) {
      var q, r := CarelessHasTwo(s);
      more, t := CarelessIsOvertakable(s, e.p, q, r);
    } else {
      more, t := CloseUnderSync(s, e.p);
    }
  }

  lemma {:induction false} PrefixOfInv(s: Pipe)
    requires Inv(s)
    ensures s.delivered <= s.accepted
  {
    hide LockOk, CountOk, ProcsOk;
  }

  // The shortest such runs.

  /** A state with two readers and a writer, nobody asleep. */
  function Three(data: seq<byte>, offset: nat, locked: bool, i_count: int, a: Code, b: Code, c: Code, open: bool,
                 accepted: seq<byte>, delivered: seq<byte>): Pipe {
    Pipe(data, offset, false, false, locked, false, i_count, Away,
         [Proc(a, Awake, true, false), Proc(b, Awake, true, false), Proc(c, Awake, false, open)], accepted, delivered)
  }

  /** The byte has been written. */
  function ByteWritten(): Pipe {
    Three([7], 0, false, 2, User, User, User, true, [7], [])
  }

  /** The first reader is in its transfer without the lock, and the second could read. */
  function Unlocked(): Pipe {
    Three([7], 0, false, 1, ReadCopy(0, 1), User, User, false, [7], [])
  }

  function Twice(): Pipe {
    Three([7], 1, false, 1, User, User, User, false, [7], [7, 7])
  }

  lemma {:induction false} BothRead() returns (es: seq<Event>)
    ensures Run(Unlocked(), es, Twice(), false)
  {
    hide Run, OthersHave;
    var copy := ReadCopy(0, 1);
    var s8 := Three([7], 0, false, 1, copy, Read(1), User, false, [7], []);
    var s9 := Three([7], 0, true, 1, copy, copy, User, false, [7], []);
    var s10 := Three([7], 1, false, 1, User, copy, User, false, [7], [7]);
    Stays(Twice(), false);
    es := Before(s10, Step(1), Twice(), [], Twice());
    es := Before(s9, Step(0), s10, es, Twice());
    es := Before(s8, Step(1), s9, es, Twice());
    es := Before(Unlocked(), CallRead(1, 1), s8, es, Twice());
  }

  lemma {:induction false} OneByteWritten()
    ensures Overlay([], 0, [7]) == [7] && Min(1, 1) == 1
  {
  }

  lemma {:induction false} WriterWrites(es: seq<Event>, t: Pipe) returns (more: seq<Event>)
    requires Run(ByteWritten(), es, t, false)
    ensures Run(Three([], 0, false, 2, User, User, User, true, [], []), more, t, false)
  {
    hide Run, Overlay;
    var s1 := Three([], 0, false, 2, User, User, Write([7]), true, [], []);
    var s2 := Three([], 0, true, 2, User, User, WriteCopy(0, [7], 1), true, [], []);
    var s3 := Three([7], 0, false, 2, User, User, Write([]), true, [7], []);
    more := Before(s3, Step(2), ByteWritten(), es, t);
    OneByteWritten();
    assert [7][..1] == [7] && [7][1..] == [] && [] + [7] == [7];
    more := Before(s2, Step(2), s3, more, t);
    more := Before(s1, Step(2), s2, more, t);
    more := Before(Three([], 0, false, 2, User, User, User, true, [], []), CallWrite(2, [7]), s1, more, t);
  }

  lemma {:induction false} StartIsInit()
    ensures Init(Three([], 0, false, 2, User, User, User, true, [], []))
  {
    var s := Three([], 0, false, 2, User, User, User, true, [], []);
    assert s.procs[0].r && s.procs[2].w;
  }

  /** Two readers, and a writer that closes while the first is in its transfer: the byte is delivered twice. */
  lemma {:induction false} DeliveredTwice() returns (s0: Pipe, es: seq<Event>, s: Pipe)
    ensures Init(s0) && Run(s0, es, s, false)
    ensures s.accepted == [7] && s.delivered == [7, 7]
  {
    hide Run, OthersHave, Init;
    s0, s := Three([], 0, false, 2, User, User, User, true, [], []), Twice();
    StartIsInit();
    var s5 := Three([7], 0, false, 2, Read(1), User, User, true, [7], []);
    var s6 := Three([7], 0, true, 2, ReadCopy(0, 1), User, User, true, [7], []);
    es := BothRead();
    LastWriter(s6);
    es := Before(s6, Close(2, false), Unlocked(), es, s);
    es := Before(s5, Step(0), s6, es, s);
    es := Before(ByteWritten(), CallRead(0, 1), s5, es, s);
    es := WriterWrites(es, s);
  }

  /** The writer closes while nobody reads but `sync` has the inode: it unlocks the first reader's transfer. */
  lemma {:induction false} DeliveredTwiceAfterSync() returns (s0: Pipe, es: seq<Event>, s: Pipe)
    ensures Init(s0) && Run(s0, es, s, false)
    ensures s.accepted == [7] && s.delivered == [7, 7]
  {
    hide Run, OthersHave, Init;
    s0, s := Three([], 0, false, 2, User, User, User, true, [], []), Twice();
    StartIsInit();
    var held := ByteWritten().(locked := true, sync := Holding);
    var closed := Three([7], 0, false, 1, User, User, User, false, [7], []).(sync := Overrun);
    var called := Three([7], 0, false, 1, Read(1), User, User, false, [7], []).(sync := Overrun);
    es := BothRead();
    es := Before(Unlocked().(locked := true, sync := Overrun), SyncDone, Unlocked(), es, s);
    es := Before(called, Step(0), Unlocked().(locked := true, sync := Overrun), es, s);
    es := Before(closed, CallRead(0, 1), called, es, s);
    LastWriter(held);
    es := Before(held, Close(2, false), closed, es, s);
    es := Before(ByteWritten(), SyncLock, held, es, s);
    es := WriterWrites(es, s);
  }

  lemma {:induction false} LastWriter(s: Pipe)
    requires |s.procs| == 3 && !s.procs[0].w && !s.procs[1].w
    ensures !OthersHave(s, 2, false)
  {
  }

  /** A run with one more event in front. */
  lemma {:induction false} Before(s: Pipe, e: Event, next: Pipe, es: seq<Event>, t: Pipe) returns (more: seq<Event>)
    requires Enabled(s, e) && Apply(s, e) == next && Run(next, es, t, false)
    ensures more == [e] + es && Run(s, more, t, false)
  {
    more := [e] + es;
    assert more[1..] == es;
  }
}
