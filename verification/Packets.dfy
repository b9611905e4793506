/**
 The frames of the remote protocol: `$`, the payload, `#` and two hexadecimal digits that say the sum of
 the payload's bytes modulo 256. The receiver is a machine fed one poll of the serial line at a time.
 */
module Packets {
  import opened Words

  const START: byte := 0x24
  const HASH: byte := 0x23
  const ACK: byte := 0x2B
  const NACK: byte := 0x2D
  const INTERRUPT: byte := 0x03

  const TIMEOUT_LIMIT := 1000000

  /** What one poll of the line finds: a byte, or NO_DATA. */
  type poll = x: int | -1 <= x < 256
  const NO_DATA: poll := -1

  function Sum(data: seq<byte>): (c: byte) {
    if data == [] then 0 else (Sum(data[..|data| - 1]) + data[|data| - 1]) % 256
  }

  function HexDigit(n: int): byte
    requires 0 <= n < 16
  {
    if n < 10 then 0x30 + n else 0x61 + n - 10
  }

  /** The digit's value, in either case of letters, or -1. */
  function HexValue(c: byte): (v: int)
    ensures -1 <= v < 16
  {
    if 0x30 <= c <= 0x39 then c - 0x30
    else if 0x61 <= c <= 0x66 then c - 0x61 + 10
    else if 0x41 <= c <= 0x46 then c - 0x41 + 10
    else -1
  }

  function Frame(data: seq<byte>): seq<byte> {
    [START] + data + [HASH, HexDigit(Sum(data) / 16), HexDigit(Sum(data) % 16)]
  }

  // The receiver.

  /** Waiting for a start, inside the payload, or after `digits` digits of the sum. */
  datatype Rx = Idle | Data(buf: seq<byte>, sum: byte) | Digits(got: seq<byte>, total: byte, recv: byte, digits: nat)

  /** `Early` marks bytes that were left over. */
  datatype Step = More(rx: Rx) | Done(ret: int, payload: seq<byte>, reply: seq<byte>) | Early

  function Next(rx: Rx, c: byte, max: int): (n: Step)
    ensures !n.Early?
  {
    if c == INTERRUPT then Done(1, [INTERRUPT], [])
    else
      match rx
      case Idle => More(if c == START then Data([], 0) else Idle)
      case Data(buf, sum) =>
        if c == HASH then More(Digits(buf, sum, 0, 0))
        else if |buf| < max - 1 then More(Data(buf + [c], (sum + c) % 256))
        else Done(-1, [], [NACK])
      case Digits(got, total, recv, digits) =>
        if HexValue(c) < 0 then Done(-1, [], [NACK])
        else
          var sum: byte := (recv * 16 + HexValue(c)) % 256;
          if digits + 1 != 2 then More(Digits(got, total, sum, digits + 1))
          else if sum == total then Done(|got|, got, [ACK])
          else Done(-1, [], [NACK])
  }

  /** What a call of the receiver returns and answers, and the polls it leaves. A timeout is a 0 without an answer. */
  datatype Outcome = Outcome(ret: int, payload: seq<byte>, reply: seq<byte>, rest: seq<poll>)

  /** Once `polls` is used up the line stays silent. */
  function Listen(polls: seq<poll>, rx: Rx, silent: nat, max: int): Outcome
    decreases |polls|
  {
    if polls == [] then Outcome(0, [], [], [])
    else if polls[0] == NO_DATA then
      if silent + 1 > TIMEOUT_LIMIT then Outcome(0, [], [], polls[1..]) else Listen(polls[1..], rx, silent + 1, max)
    else
      var n := Next(rx, polls[0], max);
      if n.More? then Listen(polls[1..], n.rx, 0, max)
      else Outcome(n.ret, n.payload, n.reply, polls[1..])
  }

  /** The machine fed bytes without gaps. */
  function Feed(rx: Rx, bytes: seq<byte>, max: int): Step
    decreases |bytes|
  {
    if bytes == [] then More(rx)
    else
      var n := Next(rx, bytes[0], max);
      if |bytes| == 1 then n else if n.More? then Feed(n.rx, bytes[1..], max) else Early
  }

  /** The polls bring exactly these bytes, the last of them last, with no silence as long as the timeout. */
  predicate Arrives(polls: seq<poll>, bytes: seq<byte>, silent: nat)
    decreases |polls|
  {
    if bytes == [] then polls == []
    else if polls == [] then false
    else if polls[0] == NO_DATA then silent < TIMEOUT_LIMIT && Arrives(polls[1..], bytes, silent + 1)
    else polls[0] == bytes[0] && Arrives(polls[1..], bytes[1..], 0)
  }

  /** Silences shorter than the timeout make no difference, and nothing after the last byte is read. */
  lemma {:induction false} GapsDoNotMatter(rx: Rx, polls: seq<poll>, bytes: seq<byte>, silent: nat, max: int, after: seq<poll>)
    requires Arrives(polls, bytes, silent) && Feed(rx, bytes, max).Done?
    ensures var d := Feed(rx, bytes, max);
      Listen(polls + after, rx, silent, max) == Outcome(d.ret, d.payload, d.reply, after)
    decreases |polls|
  {
    hide Next;
    assert (polls + after)[1..] == polls[1..] + after;
    if polls[0] == NO_DATA {
      GapsDoNotMatter(rx, polls[1..], bytes, silent + 1, max, after);
    } else {
      var n := Next(rx, bytes[0], max);
      if |bytes| == 1 {
        assert bytes[1..] == [] && polls[1..] + after == after;
      } else {
        GapsDoNotMatter(n.rx, polls[1..], bytes[1..], 0, max, after);
      }
    }
  }

  lemma {:induction false} FeedBoth(rx: Rx, a: seq<byte>, b: seq<byte>, max: int)
    requires Feed(rx, a, max).More?
    ensures Feed(rx, a + b, max) == Feed(Feed(rx, a, max).rx, b, max)
    decreases |a|
  {
    hide Next;
    if a == [] {
      assert a + b == b;
    } else if b == [] {
      assert a + b == a;
    } else {
      assert (a + b)[1..] == a[1..] + b;
      var n := Next(rx, a[0], max);
      assert a[1..] == [] ==> Feed(n.rx, a[1..], max) == n;
      FeedBoth(n.rx, a[1..], b, max);
    }
  }

  // The bytes around and inside a frame.

  /** Nothing that starts a frame or interrupts. */
  predicate Quiet(noise: seq<byte>) {
    forall i :: 0 <= i < |noise| ==> noise[i] != START && noise[i] != INTERRUPT
  }

  /** A payload: `$` is allowed inside, `#` and the interrupt byte are not. */
  predicate Plain(data: seq<byte>) {
    forall i :: 0 <= i < |data| ==> data[i] != HASH && data[i] != INTERRUPT
  }

  lemma {:induction false} FeedNoise(noise: seq<byte>, max: int)
    requires Quiet(noise)
    ensures Feed(Idle, noise, max) == More(Idle)
    decreases |noise|
  {
    if noise != [] {
      FeedNoise(noise[1..], max);
    }
  }

  lemma {:induction false} SumOfLonger(front: seq<byte>, x: byte)
    ensures Sum(front + [x]) == (Sum(front) + x) % 256
  {
    assert (front + [x])[..|front|] == front;
  }

  lemma {:induction false} FeedOneMore(front: seq<byte>, x: byte, max: int)
    requires x != HASH && x != INTERRUPT && |front| + 1 < max
    requires Feed(Data([], 0), front, max) == More(Data(front, Sum(front)))
    ensures Feed(Data([], 0), front + [x], max) == More(Data(front + [x], Sum(front + [x])))
  {
    hide Sum;
    FeedBoth(Data([], 0), front, [x], max);
    SumOfLonger(front, x);
  }

  lemma {:induction false} FeedData(data: seq<byte>, max: int)
    requires Plain(data) && |data| < max
    ensures Feed(Data([], 0), data, max) == More(Data(data, Sum(data)))
    decreases |data|
  {
    hide Next;
    if data != [] {
      var front, last := data[..|data| - 1], data[|data| - 1];
      FeedData(front, max);
      FeedOneMore(front, last, max);
      assert front + [last] == data;
    }
  }

  /** Noise, a start and a payload that fits. */
  lemma {:induction false} FeedOpen(noise: seq<byte>, data: seq<byte>, max: int)
    requires Quiet(noise) && Plain(data) && |data| < max
    ensures Feed(Idle, noise + ([START] + data), max) == More(Data(data, Sum(data)))
  {
    hide Sum;
    FeedNoise(noise, max);
    FeedBoth(Idle, noise, [START] + data, max);
    FeedBoth(Idle, [START], data, max);
    FeedData(data, max);
  }

  /** Whether two bytes are digits that say the payload's sum. */
  predicate Checks(data: seq<byte>, d1: byte, d2: byte) {
    HexValue(d1) >= 0 && HexValue(d2) >= 0 && 16 * HexValue(d1) + HexValue(d2) == Sum(data)
  }

  function Closed(data: seq<byte>, d1: byte, d2: byte): Step {
    if Checks(data, d1, d2) then Done(|data|, data, [ACK]) else Done(-1, [], [NACK])
  }

  lemma {:induction false} FeedClose(data: seq<byte>, d1: byte, d2: byte, max: int)
    requires d1 != INTERRUPT && d2 != INTERRUPT && HexValue(d1) >= 0
    ensures Feed(Data(data, Sum(data)), [HASH, d1, d2], max) == Closed(data, d1, d2)
  {
    hide Sum, HexValue;
    var zero, one := Digits(data, Sum(data), 0, 0), Digits(data, Sum(data), HexValue(d1), 1);
    assert [HASH, d1, d2][1..] == [d1, d2] && [d1, d2][1..] == [d2];
    assert Feed(Data(data, Sum(data)), [HASH, d1, d2], max) == Feed(zero, [d1, d2], max);
    assert Feed(zero, [d1, d2], max) == Feed(one, [d2], max);
  }

  function Sent(data: seq<byte>, d1: byte, d2: byte): seq<byte> {
    [START] + data + [HASH, d1, d2]
  }

  lemma {:induction false} FeedFrame(noise: seq<byte>, data: seq<byte>, d1: byte, d2: byte, max: int)
    requires Quiet(noise) && Plain(data) && |data| < max
    requires d1 != INTERRUPT && d2 != INTERRUPT && HexValue(d1) >= 0
    ensures Feed(Idle, noise + Sent(data, d1, d2), max) == Closed(data, d1, d2)
  {
    hide Sum, HexValue, Feed, Closed;
    FeedOpen(noise, data, max);
    FeedClose(data, d1, d2, max);
    FeedBoth(Idle, noise + ([START] + data), [HASH, d1, d2], max);
    assert noise + Sent(data, d1, d2) == (noise + ([START] + data)) + [HASH, d1, d2];
  }

  /** What brings some bytes and then others brings the first ones first. */
  lemma {:induction false} ArrivesFirst(polls: seq<poll>, a: seq<byte>, b: seq<byte>, silent: nat)
    returns (first: seq<poll>, later: seq<poll>)
    requires Arrives(polls, a + b, silent)
    ensures polls == first + later && Arrives(first, a, silent)
    decreases |polls|
  {
    if a == [] {
      first, later := [], polls;
    } else if polls[0] == NO_DATA {
      first, later := ArrivesFirst(polls[1..], a, b, silent + 1);
      first := [NO_DATA] + first;
      assert first[1..] + later == polls[1..];
    } else {
      assert (a + b)[1..] == a[1..] + b;
      first, later := ArrivesFirst(polls[1..], a[1..], b, 0);
      first := [polls[0]] + first;
      assert first[1..] + later == polls[1..];
    }
  }

  /** A first character of the sum that is no digit. */
  lemma {:induction false} FeedNoDigit(noise: seq<byte>, data: seq<byte>, d1: byte, max: int)
    requires Quiet(noise) && Plain(data) && |data| < max && d1 != INTERRUPT && HexValue(d1) < 0
    ensures Feed(Idle, noise + ([START] + data + [HASH, d1]), max) == Done(-1, [], [NACK])
  {
    hide Sum, HexValue;
    FeedOpen(noise, data, max);
    FeedBoth(Idle, noise + ([START] + data), [HASH, d1], max);
    assert [HASH, d1][1..] == [d1];
    assert noise + ([START] + data + [HASH, d1]) == (noise + ([START] + data)) + [HASH, d1];
  }

  /**
   A frame is accepted exactly when its digits say its payload's sum. It is read to its end and no
   further, unless the first of them is no digit, which is refused at once.
   */
  lemma {:induction false} AcceptedIffSumIsRight(noise: seq<byte>, data: seq<byte>, d1: byte, d2: byte, max: int,
                                                 polls: seq<poll>, after: seq<poll>)
    requires Quiet(noise) && Plain(data) && |data| < max && d1 != INTERRUPT && d2 != INTERRUPT
    requires Arrives(polls, noise + Sent(data, d1, d2), 0)
    ensures var o := Listen(polls + after, Idle, 0, max);
      && (if Checks(data, d1, d2) then o.ret == |data| && o.payload == data && o.reply == [ACK]
          else o.ret == -1 && o.payload == [] && o.reply == [NACK])
      && (HexValue(d1) >= 0 ==> o.rest == after)
  {
    hide HexValue, Feed, Listen, Arrives;
    if HexValue(d1) >= 0 {
      FeedFrame(noise, data, d1, d2, max);
      GapsDoNotMatter(Idle, polls, noise + Sent(data, d1, d2), 0, max, after);
    } else {
      var start := noise + ([START] + data + [HASH, d1]);
      assert noise + Sent(data, d1, d2) == start + [d2];
      var first, later := ArrivesFirst(polls, start, [d2], 0);
      FeedNoDigit(noise, data, d1, max);
      GapsDoNotMatter(Idle, first, start, 0, max, later + after);
      assert polls + after == first + (later + after);
    }
  }

  lemma {:induction false} DigitsAreRead(n: int)
    requires 0 <= n < 16
    ensures HexValue(HexDigit(n)) == n && HexDigit(n) != INTERRUPT
  {
  }

  function Total(data: seq<byte>): nat {
    if data == [] then 0 else data[0] as int + Total(data[1..])
  }

  lemma {:induction false} TotalOfLonger(data: seq<byte>)
    requires data != []
    ensures Total(data) == Total(data[..|data| - 1]) + data[|data| - 1] as int
    decreases |data|
  {
    if |data| > 1 {
      TotalOfLonger(data[1..]);
      assert data[1..][..|data| - 2] == data[..|data| - 1][1..];
    }
  }

  lemma {:induction false} SumIsModulo(data: seq<byte>)
    ensures Sum(data) as int == Total(data) % 256
    decreases |data|
  {
    hide Total;
    EmptyTotal();
    if data != [] {
      SumIsModulo(data[..|data| - 1]);
      TotalOfLonger(data);
      ModAdd(Total(data[..|data| - 1]), data[|data| - 1] as int);
    }
  }

  lemma {:induction false} EmptyTotal()
    ensures Total([]) == 0
  {
  }

  const HEX := "0123456789abcdef"

  /** Behind the payload a frame says its bytes' sum modulo 256 in two hexadecimal digits, the higher first. */
  lemma {:induction false} FrameSaysSum(data: seq<byte>)
    ensures var f, sum := Frame(data), Total(data) % 256;
            && |f| == |data| + 4 && f[0] == START && f[1..|data| + 1] == data && f[|data| + 1] == HASH
            && f[|data| + 2] as int == HEX[sum / 16] as int && f[|data| + 3] as int == HEX[sum % 16] as int
  {
    hide Sum;
    SumIsModulo(data);
    Hexadecimal(Sum(data) / 16);
    Hexadecimal(Sum(data) % 16);
  }

  lemma {:induction false} Hexadecimal(n: int)
    requires 0 <= n < 16
    ensures HexDigit(n) as int == HEX[n] as int
  {
  }

  /** A silence of more than the limit of polls ends the call with nothing, and leaves what comes then. */
  lemma {:induction false} SilenceEndsCall(rx: Rx, silent: nat, silence: seq<poll>, max: int, after: seq<poll>)
    requires silent + |silence| == TIMEOUT_LIMIT + 1 && silence != []
    requires forall i :: 0 <= i < |silence| ==> silence[i] == NO_DATA
    ensures Listen(silence + after, rx, silent, max) == Outcome(0, [], [], after)
    decreases |silence|
  {
    assert (silence + after)[1..] == silence[1..] + after;
    if |silence| > 1 {
      SilenceEndsCall(rx, silent + 1, silence[1..], max, after);
    } else {
      assert silence[1..] + after == after;
    }
  }

  lemma {:induction false} FrameChecks(data: seq<byte>)
    ensures var d1, d2 := HexDigit(Sum(data) / 16), HexDigit(Sum(data) % 16);
      Frame(data) == Sent(data, d1, d2) && Checks(data, d1, d2) && d1 != INTERRUPT && d2 != INTERRUPT
  {
    hide HexDigit, HexValue, Sum;
    DigitsAreRead(Sum(data) / 16);
    DigitsAreRead(Sum(data) % 16);
  }

  /** What is framed is received: the very payload, an acknowledgement, and not a byte more is read. */
  lemma {:induction false} RoundTrip(noise: seq<byte>, data: seq<byte>, max: int, polls: seq<poll>, after: seq<poll>)
    requires Quiet(noise) && Plain(data) && |data| < max && Arrives(polls, noise + Frame(data), 0)
    ensures Listen(polls + after, Idle, 0, max) == Outcome(|data|, data, [ACK], after)
  {
    hide Listen, Arrives, Sum, HexDigit, HexValue, Frame, Sent;
    FrameChecks(data);
    AcceptedIffSumIsRight(noise, data, HexDigit(Sum(data) / 16), HexDigit(Sum(data) % 16), max, polls, after);
  }

  // One byte of the payload changed on the line.

  lemma {:induction false} ModAdd(s: int, x: int)
    ensures (s % 256 + x) % 256 == (s + x) % 256
  {
  }

  lemma {:induction false} SumNoticesOneByte(data: seq<byte>, i: int, c: byte)
    requires 0 <= i < |data|
    ensures Sum(data[i := c]) == (Sum(data) + c - data[i]) % 256
    decreases |data|
  {
    hide Sum;
    var front, last := data[..|data| - 1], data[|data| - 1];
    assert data == front + [last];
    SumOfLonger(front, last);
    ModAdd(Sum(front) + last, c - data[i]);
    if i == |front| {
      assert data[i := c] == front + [c];
      SumOfLonger(front, c);
    } else {
      assert data[i := c] == front[i := c] + [last];
      SumOfLonger(front[i := c], last);
      SumNoticesOneByte(front, i, c);
      ModAdd(Sum(front) + c - data[i], last);
    }
  }

  /** A wrong byte in the payload is refused; the frame sent again after it is received. */
  lemma {:induction false} WrongByteIsRefused(noise: seq<byte>, data: seq<byte>, i: int, c: byte, max: int,
                                              polls: seq<poll>, noise2: seq<byte>, again: seq<poll>, after: seq<poll>)
    requires Quiet(noise) && Quiet(noise2) && Plain(data) && |data| < max
    requires 0 <= i < |data| && c != data[i] && c != HASH && c != INTERRUPT
    requires Arrives(polls, noise + Frame(data)[i + 1 := c], 0)
    requires Arrives(again, noise2 + Frame(data), 0)
    ensures Listen(polls + (again + after), Idle, 0, max) == Outcome(-1, [], [NACK], again + after)
    ensures Listen(again + after, Idle, 0, max) == Outcome(|data|, data, [ACK], after)
  {
    hide Listen, Arrives, Sum, HexDigit, HexValue;
    var d1, d2 := HexDigit(Sum(data) / 16), HexDigit(Sum(data) % 16);
    FrameChecks(data);
    SumNoticesOneByte(data, i, c);
    assert Frame(data)[i + 1 := c] == Sent(data[i := c], d1, d2);
    AcceptedIffSumIsRight(noise, data[i := c], d1, d2, max, polls, again + after);
    RoundTrip(noise2, data, max, again, after);
  }

  /** A payload that does not fit is refused at the first byte too many. */
  lemma {:induction false} TooLongIsRefused(noise: seq<byte>, data: seq<byte>, max: nat, polls: seq<poll>, after: seq<poll>)
    requires Quiet(noise) && Plain(data) && |data| == max > 0
    requires Arrives(polls, noise + ([START] + data), 0)
    ensures Listen(polls + after, Idle, 0, max) == Outcome(-1, [], [NACK], after)
  {
    hide Listen, Arrives, Sum;
    var fits, last := data[..max - 1], data[max - 1];
    FeedOpen(noise, fits, max);
    FeedBoth(Idle, noise + ([START] + fits), [last], max);
    assert noise + ([START] + data) == (noise + ([START] + fits)) + [last];
    GapsDoNotMatter(Idle, polls, noise + ([START] + data), 0, max, after);
  }

  /** The interrupt byte is received at once, inside a frame as well, and is not answered. */
  lemma {:induction false} InterruptIsHeard(bytes: seq<byte>, max: int, polls: seq<poll>, after: seq<poll>)
    requires Feed(Idle, bytes, max).More? && Arrives(polls, bytes + [INTERRUPT], 0)
    ensures Listen(polls + after, Idle, 0, max) == Outcome(1, [INTERRUPT], [], after)
  {
    hide Listen, Arrives;
    FeedBoth(Idle, bytes, [INTERRUPT], max);
    GapsDoNotMatter(Idle, polls, bytes + [INTERRUPT], 0, max, after);
  }

  // A whole session.

  function ReceiveAll(n: nat, polls: seq<poll>, max: int): (all: seq<seq<byte>>)
    decreases n
  {
    if n == 0 then []
    else
      var o := Listen(polls, Idle, 0, max);
      [o.payload] + ReceiveAll(n - 1, o.rest, max)
  }

  /** Each message's polls bring some noise and the message's frame. */
  ghost predicate Carries(lines: seq<seq<poll>>, noises: seq<seq<byte>>, messages: seq<seq<byte>>, max: int) {
    && |lines| == |noises| == |messages|
    && forall i :: 0 <= i < |messages| ==> CarriesOne(lines[i], noises[i], messages[i], max)
  }

  predicate CarriesOne(line: seq<poll>, noise: seq<byte>, message: seq<byte>, max: int) {
    Quiet(noise) && Plain(message) && |message| < max && Arrives(line, noise + Frame(message), 0)
  }

  function Joined(lines: seq<seq<poll>>): seq<poll> {
    if lines == [] then [] else lines[0] + Joined(lines[1..])
  }

  /** As many calls as there are frames give the messages sent, in their order. */
  lemma {:induction false} SessionIsReceived(lines: seq<seq<poll>>, noises: seq<seq<byte>>, messages: seq<seq<byte>>, max: int)
    requires Carries(lines, noises, messages, max)
    ensures ReceiveAll(|messages|, Joined(lines), max) == messages
    decreases |messages|
  {
    hide Listen, Arrives, Frame;
    if messages != [] {
      assert CarriesOne(lines[0], noises[0], messages[0], max);
      RoundTrip(noises[0], messages[0], max, lines[0], Joined(lines[1..]));
      assert Carries(lines[1..], noises[1..], messages[1..], max) by {
        forall i | 0 <= i < |messages| - 1 ensures CarriesOne(lines[1..][i], noises[1..][i], messages[1..][i], max) {
          assert CarriesOne(lines[i + 1], noises[i + 1], messages[i + 1], max);
        }
      }
      SessionIsReceived(lines[1..], noises[1..], messages[1..], max);
    }
  }
}
