/**
 The serial line the debugger talks over. `incoming` is what polling it will find, one entry a poll, and
 then silence; `outgoing` is what was written to it.
 */
module SerialPorts {
  import opened Words
  import opened Packets

  const DEBUG_BUFFER_SIZE := 1024

  class SerialPort {
    var incoming: seq<poll>
    var outgoing: seq<byte>

    method Outb(data: byte)
      modifies this`outgoing
      ensures outgoing == old(outgoing) + [data]
    {
      outgoing := outgoing + [data];
    }

    method InbNb() returns (ch: poll)
      modifies this`incoming
      ensures old(incoming) == [] ==> ch == NO_DATA && incoming == []
      ensures old(incoming) != [] ==> ch == old(incoming)[0] && incoming == old(incoming)[1..]
    {
      if incoming == [] {
        return NO_DATA;
      }
      ch := incoming[0];
      incoming := incoming[1..];
    }

    method Write(data: array<byte>, len: nat)
      requires len <= data.Length
      modifies this`outgoing
      ensures outgoing == old(outgoing) + data[..len]
    {
      var i := 0;
      while i < len
        invariant 0 <= i <= len && outgoing == old(outgoing) + data[..i]
      {
        Outb(data[i]);
        assert data[..i + 1] == data[..i] + [data[i]];
        i := i + 1;
      }
    }

    /** Sends byte by byte, adding up on the way. */
    method SendPacket(data: array<byte>, len: nat)
      requires len <= data.Length
      modifies this`outgoing
      ensures outgoing == old(outgoing) + Frame(data[..len])
    {
      hide Sum;
      var checksum: byte := SumOfNone();
      Outb(START);
      var i := 0;
      while i < len
        invariant 0 <= i <= len && checksum == Sum(data[..i])
        invariant outgoing == old(outgoing) + ([START] + data[..i])
      {
        Outb(data[i]);
        assert data[..i + 1] == data[..i] + [data[i]];
        SumOfLonger(data[..i], data[i]);
        checksum := (checksum + data[i]) % 256;
        i := i + 1;
      }
      Outb(HASH);
      Outb(HexDigit(checksum / 16));
      Outb(HexDigit(checksum % 16));
    }

    /** Puts the whole frame together in a buffer first. */
    method GdbSendPacket(data: array<byte>, len: nat)
      requires len <= data.Length && len + 4 < DEBUG_BUFFER_SIZE
      modifies this`outgoing
      ensures outgoing == old(outgoing) + Frame(data[..len])
    {
      hide Sum, Frame, HexDigit;
      var buffer := new byte[DEBUG_BUFFER_SIZE];
      var checksum := Checksum(data, len);
      buffer[0] := START;
      CopyTo(data, len, buffer, 1);
      assert buffer[..1] == [START];
      buffer[len + 1], buffer[len + 2], buffer[len + 3] := HASH, HexDigit(checksum / 16), HexDigit(checksum % 16);
      buffer[len + 4] := 0;
      FrameInPieces(buffer[..], data[..len]);
      Write(buffer, len + 4);
    }

    /**
     One packet into `buffer`: its length, 1 with the interrupt byte, -1 for a packet refused, or 0 when the
     line has been silent too long. The buffer has room for the interrupt byte and its terminator.
     */
    method RecvPacket(buffer: array<byte>, maxLen: int) returns (r: int)
      requires 2 <= maxLen <= buffer.Length
      modifies this, buffer
      ensures var o := Listen(old(incoming), Idle, 0, maxLen);
        && r == o.ret && incoming == o.rest && outgoing == old(outgoing) + o.reply
        && |o.payload| < buffer.Length && buffer[..|o.payload|] == o.payload
        && (o.payload != [] || o.reply == [ACK] ==> buffer[|o.payload|] == 0)
    {
      hide HexValue, Listen;
      var state, len, digits, timeout := 0, 0, 0, 0;
      var sum: byte, recv: byte := 0, 0;
      ghost var polls := incoming;
      while true
        invariant 0 <= len < maxLen && 0 <= timeout <= TIMEOUT_LIMIT && outgoing == old(outgoing)
        invariant 0 <= state <= 2 && 0 <= digits && (state == 2 ==> digits < 2)
        invariant Listen(incoming, RxOf(state, buffer[..len], sum, recv, digits), timeout, maxLen) == Listen(polls, Idle, 0, maxLen)
        decreases |incoming|, TIMEOUT_LIMIT - timeout
      {
        ghost var rx, line := RxOf(state, buffer[..len], sum, recv, digits), incoming;
        ListenOnce(line, rx, timeout, maxLen);
        var ch := InbNb();
        if ch < 0 {
          timeout := timeout + 1;
          if timeout > TIMEOUT_LIMIT {
            return 0;
          }
          continue;
        }
        timeout := 0;
        var c: byte := ch;
        if c == INTERRUPT {
          buffer[0] := INTERRUPT;
          buffer[1] := 0;
          return 1;
        }
        if state == 0 {
          if c == START {
            state, len, sum := 1, 0, 0;
          }
        } else if state == 1 {
          if c == HASH {
            state, digits, recv := 2, 0, 0;
          } else if len < maxLen - 1 {
            buffer[len] := c;
            assert buffer[..len + 1] == rx.buf + [c];
            len := len + 1;
            sum := (sum + c) % 256;
          } else {
            Outb(NACK);
            return -1;
          }
        } else {
          if HexValue(c) < 0 {
            Outb(NACK);
            return -1;
          }
          recv := (recv * 16 + HexValue(c)) % 256;
          digits := digits + 1;
          if digits == 2 {
            if recv == sum {
              buffer[len] := 0;
              Outb(ACK);
              return len;
            }
            Outb(NACK);
            return -1;
          }
        }
      }
    }
  }

  /** The receiver's state, as its variables hold it. */
  function RxOf(state: int, buf: seq<byte>, sum: byte, recv: byte, digits: nat): Rx {
    if state == 0 then Idle else if state == 1 then Data(buf, sum) else Digits(buf, sum, recv, digits)
  }

  function SumOfNone(): (c: byte)
    ensures c == Sum([])
  {
    0
  }

  lemma {:induction false} ListenOnce(polls: seq<poll>, rx: Rx, silent: nat, max: int)
    ensures polls == [] ==> Listen(polls, rx, silent, max) == Outcome(0, [], [], [])
    ensures polls == [] ==> Listen(polls, rx, silent + 1, max) == Outcome(0, [], [], [])
    ensures polls != [] && polls[0] == NO_DATA ==>
      Listen(polls, rx, silent, max) ==
        if silent + 1 > TIMEOUT_LIMIT then Outcome(0, [], [], polls[1..]) else Listen(polls[1..], rx, silent + 1, max)
    ensures polls != [] && polls[0] != NO_DATA ==>
      var n := Next(rx, polls[0], max);
      Listen(polls, rx, silent, max) ==
        if n.More? then Listen(polls[1..], n.rx, 0, max) else Outcome(n.ret, n.payload, n.reply, polls[1..])
  {
  }

  lemma {:induction false} FrameInPieces(b: seq<byte>, data: seq<byte>)
    requires |b| > |data| + 4 && b[0] == START && b[1..|data| + 1] == data && b[|data| + 1] == HASH
    requires b[|data| + 2] == HexDigit(Sum(data) / 16) && b[|data| + 3] == HexDigit(Sum(data) % 16)
    ensures b[..|data| + 4] == Frame(data)
  {
    hide Sum, HexDigit;
    assert b[..|data| + 4] == [b[0]] + b[1..|data| + 1] + [b[|data| + 1], b[|data| + 2], b[|data| + 3]];
  }

  method Checksum(data: array<byte>, len: nat) returns (checksum: byte)
    requires len <= data.Length
    ensures checksum == Sum(data[..len])
  {
    hide Sum;
    checksum := SumOfNone();
    var i := 0;
    while i < len
      invariant 0 <= i <= len && checksum == Sum(data[..i])
    {
      assert data[..i + 1] == data[..i] + [data[i]];
      SumOfLonger(data[..i], data[i]);
      checksum := (checksum + data[i]) % 256;
      i := i + 1;
    }
  }

  /** `strcpy` without the terminator, which the frame's `#` overwrites. */
  method CopyTo(data: array<byte>, len: nat, buffer: array<byte>, at: nat)
    requires data != buffer && len <= data.Length && at + len <= buffer.Length
    modifies buffer
    ensures buffer[..at] == old(buffer[..at]) && buffer[at..at + len] == data[..len]
    ensures buffer[at + len..] == old(buffer[at + len..])
  {
    var i := 0;
    while i < len
      invariant 0 <= i <= len
      invariant buffer[..at] == old(buffer[..at]) && buffer[at..at + i] == data[..i]
      invariant buffer[at + i..] == old(buffer[at + i..])
    {
      buffer[at + i] := data[i];
      assert data[..i + 1] == data[..i] + [data[i]];
      assert buffer[at..at + (i + 1)] == buffer[at..at + i] + [data[i]];
      i := i + 1;
    }
  }
}
