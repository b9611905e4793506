/**
 A pipe's inode and the processes at it, changed in place as `ReadP`, `WriteP` and the closing of an end
 do. Each method runs to where its process may lose the processor, and does what module Pipes says.
 */
module PipeFiles {
  import opened Words
  import opened FileBytes
  import opened Pipes

  class PipeFile {
    /** The file's bytes up to `i_size`, as `ReadI` and `WriteI` present them. */
    var data: seq<byte>
    var f_offset: nat
    var iread: bool
    var iwrite: bool
    var ilock: bool
    var iwant: bool
    var i_count: int
    const procs: array<Proc>
    ghost var sync: Sync
    ghost var accepted: seq<byte>
    ghost var delivered: seq<byte>

    ghost function Abs(): Pipe
      reads this, procs
    {
      Pipe(data, f_offset, iread, iwrite, ilock, iwant, i_count, sync, procs[..], accepted, delivered)
    }

    method WakeUpAll(chan: Chan)
      requires chan != Awake
      modifies procs
      ensures procs[..] == Woken(old(procs[..]), chan == OnLock, chan == OnSpace, chan == OnData)
    {
      ghost var was := procs[..];
      for i := 0 to procs.Length
        invariant forall x :: 0 <= x < i ==> procs[x] == Woken(was, chan == OnLock, chan == OnSpace, chan == OnData)[x]
        invariant forall x :: i <= x < procs.Length ==> procs[x] == was[x]
      {
        if procs[i].chan == chan {
          procs[i] := procs[i].(chan := Awake);
        }
      }
    }

    method Prele()
      modifies this`ilock, this`iwant, this`sync, procs
      ensures Abs() == old(Abs()).Prele(false, false)
    {
      ghost var was := procs[..];
      WokenNobody(was);
      ilock := false;
      sync := if sync == Holding then Overrun else sync;
      if iwant {
        iwant := false;
        WakeUpAll(OnLock);
      }
    }

    /** One turn of `Plock`: the process gets the lock or goes to sleep for it. */
    method Plock(p: nat, code: Code) returns (got: bool)
      requires p < procs.Length && procs[p].code == code && procs[p].chan == Awake
      modifies this`ilock, this`iwant, procs
      ensures got == !old(ilock)
      ensures Abs() == if got then old(Abs()).(locked := true) else old(Abs()).(want := true).Set(p, code, OnLock)
    {
      if ilock {
        iwant := true;
        procs[p] := procs[p].(chan := OnLock);
        return false;
      }
      ilock := true;
      got := true;
    }

    /** What `sync` does with the inode: it takes it unless it is locked or unused, to write it, and unlocks it then. */
    method SyncTake() returns (taken: bool)
      requires sync == Away
      modifies this`ilock, this`sync
      ensures taken == Enabled(old(Abs()), SyncLock)
      ensures Abs() == if taken then Apply(old(Abs()), SyncLock) else old(Abs())
    {
      taken := !ilock && i_count != 0;
      if taken {
        ilock, sync := true, Holding;
      }
    }

    method SyncRelease()
      requires sync != Away
      modifies this`ilock, this`iwant, this`sync, procs
      ensures Abs() == Apply(old(Abs()), SyncDone)
    {
      Prele();
      sync := Away;
    }

    /** Where the process goes on, and what it waits for first. */
    method Goes(p: nat, code: Code, chan: Chan)
      requires p < procs.Length
      modifies procs
      ensures Abs() == old(Abs()).Set(p, code, chan)
    {
      procs[p] := procs[p].(code := code, chan := chan);
    }

    /** Everything has been read: the pipe starts over, and writers waiting for space go on. */
    method StartOver()
      modifies this`f_offset, this`data, this`iwrite, this`ilock, this`iwant, this`sync, procs
      ensures var s := old(Abs()); var reset := s.f_offset != 0;
        Abs() == s.(f_offset := 0, data := if reset then [] else s.data, iwrite := s.iwrite && !reset).Prele(reset && s.iwrite, false)
    {
      hide Woken;
      ghost var was, reset := procs[..], f_offset != 0 && iwrite;
      WokenNobody(was);
      if f_offset != 0 {
        f_offset, data := 0, [];
        if iwrite {
          iwrite := false;
          WakeUpAll(OnSpace);
        }
      }
      WokenTwice(was, false, reset, false, iwant, false, false);
      Prele();
    }

    /** `ReadP` from its `loop` on, up to a sleep, the return or the transfer. */
    method ReadP(p: nat, count: nat)
      requires p < procs.Length && procs[p].code == Read(count) && procs[p].chan == Awake
      modifies this, procs
      ensures Abs() == Pipes.ReadP(old(Abs()), p, count)
    {
      hide Woken;
      var got := Plock(p, Read(count));
      if !got {
        return;
      }
      if f_offset == |data| {
        StartOver();
        if i_count < 2 {
          Goes(p, User, Awake);
          return;
        }
        iread := true;
        Goes(p, Read(count), OnData);
        return;
      }
      Goes(p, ReadCopy(f_offset, count), Awake);
    }

    /** The end of `ReadP`'s transfer. */
    method ReadDone(p: nat, offset: nat, count: nat)
      requires p < procs.Length && procs[p].code == ReadCopy(offset, count)
      modifies this, procs
      ensures Abs() == Pipes.ReadDone(old(Abs()), p, offset, count)
    {
      hide Woken;
      var got := Window(data, offset, count);
      f_offset := offset + |got|;
      delivered := delivered + got;
      Prele();
      Goes(p, User, Awake);
    }

    /** `WriteP` from its `loop` on. */
    method WriteP(p: nat, rest: seq<byte>)
      requires p < procs.Length && procs[p].code == Write(rest) && procs[p].chan == Awake
      modifies this, procs
      ensures Abs() == Pipes.WriteP(old(Abs()), p, rest)
    {
      hide Woken;
      var got := Plock(p, Write(rest));
      if !got {
        return;
      }
      if rest == [] || i_count < 2 {
        Prele();
        Goes(p, User, Awake);
        return;
      }
      if |data| == PIPSIZ {
        iwrite := true;
        Prele();
        Goes(p, Write(rest), OnSpace);
        return;
      }
      Goes(p, WriteCopy(|data|, rest, Max(0, Min(|rest|, PIPSIZ - |data|))), Awake);
    }

    /** The end of a transfer of `WriteP`, which then goes back to its `loop`. */
    method WriteDone(p: nat, offset: nat, rest: seq<byte>, n: nat)
      requires p < procs.Length && procs[p].code == WriteCopy(offset, rest, n)
      modifies this, procs
      ensures Abs() == Pipes.WriteDone(old(Abs()), p, offset, rest, n)
    {
      hide Woken;
      ghost var was, wanted, woken := procs[..], iwant, iread;
      var chunk := rest[..Min(n, |rest|)];
      data := Overlay(data, offset, chunk);
      accepted := accepted + chunk;
      Prele();
      WokenNobody(procs[..]);
      if iread {
        iread := false;
        WakeUpAll(OnData);
      }
      WokenTwice(was, wanted, false, false, false, false, woken);
      Goes(p, Write(rest[|chunk|..]), Awake);
    }

    /** Closing an end; `f_count` processes had it open. */
    method CloseF(p: nat, readEnd: bool, f_count: nat)
      requires p < procs.Length && (f_count <= 1 <==> !OthersHave(Abs(), p, readEnd))
      modifies this, procs
      ensures Abs() == Pipes.CloseF(old(Abs()), p, readEnd)
    {
      hide Woken, OthersHave;
      ghost var s := Abs();
      procs[p] := if readEnd then procs[p].(r := false) else procs[p].(w := false);
      ghost var was := procs[..];
      iread, iwrite := false, false;
      WakeUpAll(OnSpace);
      WakeUpAll(OnData);
      WokenTwice(was, false, true, false, false, false, true);
      if f_count <= 1 {
        IPut();
        WokenTwice(was, false, true, true, s.want, false, false);
      }
    }

    /** Dropping an end's reference to the inode. */
    method IPut()
      modifies this`i_count, this`ilock, this`iwant, this`sync, procs
      ensures Abs() == old(Abs()).(i_count := old(i_count) - 1).Prele(false, false)
    {
      hide Woken;
      Prele();
      i_count := i_count - 1;
    }
  }

  lemma {:induction false} WokenNobody(ps: seq<Proc>)
    ensures Woken(ps, false, false, false) == ps
  {
    assert forall q :: 0 <= q < |ps| ==> Woken(ps, false, false, false)[q] == ps[q];
  }

  lemma {:induction false} WokenTwice(ps: seq<Proc>, l1: bool, s1: bool, d1: bool, l2: bool, s2: bool, d2: bool)
    ensures Woken(Woken(ps, l1, s1, d1), l2, s2, d2) == Woken(ps, l1 || l2, s1 || s2, d1 || d2)
  {
    var a, b := Woken(Woken(ps, l1, s1, d1), l2, s2, d2), Woken(ps, l1 || l2, s1 || s2, d1 || d2);
    assert forall q :: 0 <= q < |ps| ==> a[q] == b[q];
  }
}
