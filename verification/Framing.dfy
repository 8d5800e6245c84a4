// Length-prefixed messages over a byte stream that may take and give fewer bytes than asked.
module Framing {
  import opened SharedRecord

  type Octet = c: char | c as int < 256 witness '\0'

  /** One more than the largest uint32_t. */
  const WORD: nat := 0x1_0000_0000

  // ---- The length on the wire ----

  function Value(b: seq<Octet>): (n: nat)
    requires |b| == 4
    ensures n < WORD
  {
    ((b[0] as int * 256 + b[1] as int) * 256 + b[2] as int) * 256 + b[3] as int
  }

  function BigEndian(n: nat): (b: seq<Octet>)
    requires n < WORD
    ensures |b| == 4
  {
    [(n / 0x100_0000) as char, (n / 0x1_0000 % 256) as char, (n / 0x100 % 256) as char, (n % 256) as char]
  }

  lemma Halves(n: nat, d: nat)
    requires d > 0
    ensures n == n / d * d + n % d
  {
  }

  /** ntohl undoes htonl. */
  lemma ValueOfBigEndian(n: nat)
    requires n < WORD
    ensures Value(BigEndian(n)) == n
  {
    Halves(n, 256);
    Halves(n / 256, 256);
    Halves(n / 256 / 256, 256);
    assert n / 256 / 256 == n / 0x1_0000 && n / 256 / 256 / 256 == n / 0x100_0000;
  }

  /** The wire has the most significant byte first. */
  lemma NetworkOrder(n: nat, b: seq<Octet>)
    requires n < WORD && |b| == 4
    ensures BigEndian(n) == b <==>
            n == b[0] as int * 0x100_0000 + b[1] as int * 0x1_0000 + b[2] as int * 0x100 + b[3] as int
  {
    ValueOfBigEndian(n);
    var m := Value(b);
    assert m % 256 == b[3] as int && m / 256 == (b[0] as int * 256 + b[1] as int) * 256 + b[2] as int;
    assert m / 256 / 256 == b[0] as int * 256 + b[1] as int;
    assert m / 256 / 256 == m / 0x1_0000 && m / 256 / 256 / 256 == m / 0x100_0000;
  }

  // ---- Frames ----

  /** What send_message puts on the stream; the length is cut to 32 bits. */
  function Frame(m: seq<Octet>): seq<Octet> { BigEndian(|m| % WORD) + m }

  function Frames(ms: seq<seq<Octet>>): seq<Octet> {
    if |ms| == 0 then [] else Frame(ms[0]) + Frames(ms[1..])
  }

  /** Overrun: the terminator is written outside the allocation. Closed: the stream ended early. */
  datatype Receipt = Delivered(message: seq<Octet>, rest: seq<Octet>) | Closed | Overrun

  /** A buffer that held `was`, after reading into its front as much of `bytes` as fits. */
  function Filled(was: seq<Octet>, bytes: seq<Octet>): seq<Octet> {
    if |bytes| < |was| then bytes + was[|bytes|..] else bytes[..|was|]
  }

  /** The size asked of malloc: len + 1 in 32 bits. */
  function AllocationSize(len: nat): nat { (len + 1) % WORD }

  /** What receive_msg makes of a stream that holds `bytes` and then ends. `leftover` is what the
      uninitialised length word held before. */
  function Receive(bytes: seq<Octet>, leftover: seq<Octet>): Receipt
    requires |leftover| == 4
  {
    var len := Value(Filled(leftover, bytes));
    var rest := if |bytes| < 4 then [] else bytes[4..];
    if AllocationSize(len) <= len then Overrun
    else if |rest| < len then Closed
    else Delivered(rest[..len], rest[len..])
  }

  function ReceiveAll(bytes: seq<Octet>, leftover: seq<Octet>, count: nat): seq<seq<Octet>>
    requires |leftover| == 4
    decreases count
  {
    if count == 0 then []
    else
      match Receive(bytes, leftover)
      case Delivered(m, rest) => [m] + ReceiveAll(rest, leftover, count - 1)
      case _ => []
  }

  /** The allocation holds the message and its terminator for every length but the largest. */
  lemma AllocationFits(len: nat)
    requires len < WORD
    ensures AllocationSize(len) == len + 1 <==> len != WORD - 1
    ensures AllocationSize(len) <= len <==> len == WORD - 1
  {
    if len < WORD - 1 { assert (len + 1) % WORD == len + 1; }
  }

  lemma ReceiveBody(len: nat, body: seq<Octet>, leftover: seq<Octet>)
    requires |leftover| == 4 && len < WORD
    ensures Receive(BigEndian(len) + body, leftover) ==
            if len == WORD - 1 then Overrun
            else if |body| < len then Closed
            else Delivered(body[..len], body[len..])
  {
    ValueOfBigEndian(len);
    AllocationFits(len);
    hide Value, BigEndian, AllocationSize;
    var bytes := BigEndian(len) + body;
    assert Filled(leftover, bytes) == bytes[..4] == BigEndian(len);
    assert bytes[4..] == body;
  }

  /** A framed message comes back whole, leaving what follows it on the stream, exactly when it is
      shorter than 2^32 - 1 bytes. */
  lemma FrameRoundTrip(m: seq<Octet>, more: seq<Octet>, leftover: seq<Octet>)
    requires |leftover| == 4
    ensures Receive(Frame(m) + more, leftover) == Delivered(m, more) <==> |m| < WORD - 1
  {
    hide Receive, BigEndian;
    var len, body := |m| % WORD, m + more;
    assert Frame(m) + more == BigEndian(len) + body;
    ReceiveBody(len, body, leftover);
    if |m| < WORD {
      assert len == |m|;
      assert body[..len] == m && body[len..] == more;
    } else if len != WORD - 1 {
      assert |body[..len]| == len < |m|;
    }
  }

  /** Any list of messages of that size comes back in order. */
  lemma {:induction false} ListRoundTrip(ms: seq<seq<Octet>>, leftover: seq<Octet>)
    requires |leftover| == 4 && forall i :: 0 <= i < |ms| ==> |ms[i]| < WORD - 1
    ensures ReceiveAll(Frames(ms), leftover, |ms|) == ms
  {
    if |ms| > 0 {
      FrameRoundTrip(ms[0], Frames(ms[1..]), leftover);
      ListRoundTrip(ms[1..], leftover);
    }
  }

  /** The failed read of a length word goes unnoticed: a closed stream gives NULL exactly when
      the uninitialised word is neither zero (an empty message) nor all ones (an overrun). */
  lemma ClosedStream(leftover: seq<Octet>)
    requires |leftover| == 4
    ensures Receive([], leftover) == Closed <==> Value(leftover) != 0 && Value(leftover) != WORD - 1
    ensures Value(leftover) == 0 ==> Receive([], leftover) == Delivered([], [])
  {
    AllocationFits(Value(leftover));
    assert Filled(leftover, []) == leftover;
  }

  // ---- The stream ----

  class Channel {
    /** Written and not yet read, oldest first. */
    var bytes: seq<Octet>
    /** Whether write and read never return -1. */
    const reliable: bool

    constructor (reliable: bool)
      ensures bytes == [] && this.reliable == reliable
    {
      bytes := [];
      this.reliable := reliable;
    }

    /** Takes some of the data, at least one byte, or fails. */
    method Write(data: seq<Octet>) returns (sent: int)
      requires |data| > 0
      modifies this
      ensures sent == -1 || 1 <= sent <= |data|
      ensures reliable ==> sent != -1
      ensures bytes == old(bytes) + if sent == -1 then [] else data[..sent]
    {
      var fails: bool := *;
      if !reliable && fails { return -1; }
      assert 1 <= |data| <= |data|;
      sent :| 1 <= sent <= |data|;
      bytes := bytes + data[..sent];
    }

    /** Puts some bytes, at least one, into buf from `at`; 0 at the end of the stream; -1 when it
        fails. */
    method Read(buf: array<Octet>, at: nat, room: nat) returns (got: int)
      requires room > 0 && at + room <= buf.Length
      modifies this, buf
      ensures got == -1 || 0 <= got <= room
      ensures reliable ==> got != -1
      ensures got == 0 ==> |old(bytes)| == 0
      ensures got <= 0 ==> bytes == old(bytes) && buf[..] == old(buf[..])
      ensures got > 0 ==> got <= |old(bytes)| && bytes == old(bytes)[got..]
      ensures got > 0 ==> buf[..] == old(buf[..])[..at] + old(bytes)[..got] + old(buf[..])[at + got..]
    {
      var fails: bool := *;
      if !reliable && fails { return -1; }
      if |bytes| == 0 { return 0; }
      assert 1 <= 1 <= room && 1 <= |bytes|;
      got :| 1 <= got <= room && got <= |bytes|;
      forall i | 0 <= i < got { buf[at + i] := bytes[i]; }
      bytes := bytes[got..];
    }
  }

  /** Sends all of the first sz bytes unless the channel fails; then a proper prefix has gone. */
  method SendLooped(ch: Channel, buf: array<Octet>, sz: nat) returns (ok: bool, ghost gone: nat)
    requires sz <= buf.Length
    modifies ch
    ensures gone <= sz && ch.bytes == old(ch.bytes) + buf[..gone]
    ensures ok <==> gone == sz
    ensures ch.reliable ==> ok
  {
    var ptr, remain := 0, sz;
    while remain > 0
      invariant 0 <= ptr <= sz && ptr + remain == sz
      invariant ch.bytes == old(ch.bytes) + buf[..ptr]
    {
      var sent := ch.Write(buf[ptr..ptr + remain]);
      if sent == -1 { return false, ptr; }
      assert buf[..ptr] + buf[ptr..ptr + remain][..sent] == buf[..ptr + sent];
      ptr := ptr + sent;
      remain := remain - sent;
    }
    return true, ptr;
  }

  /** The whole frame of the C string in buf, unless the channel fails. */
  method SendMessage(ch: Channel, buf: array<Octet>) returns (ok: bool)
    requires |Str(buf[..])| < buf.Length
    modifies ch
    ensures ok ==> ch.bytes == old(ch.bytes) + Frame(buf[..|Str(buf[..])|])
    ensures ch.reliable ==> ok
  {
    var strlen := |Str(buf[..])|;
    var word := BigEndian(strlen % WORD);
    var len := new Octet[4](i requires 0 <= i < 4 => word[i]);
    ghost var gone;
    ok, gone := SendLooped(ch, len, 4);
    if !ok { return; }
    assert len[..4] == word;
    ok, gone := SendLooped(ch, buf, strlen);
  }

  lemma ReadOn(stream: seq<Octet>, was: seq<Octet>, at: nat, got: nat)
    requires at + got <= |stream| && at + got <= |was|
    ensures stream[at..][got..] == stream[at + got..]
    ensures var now := stream[..at] + was[at..];
            now[..at] + stream[at..][..got] + now[at + got..] == stream[..at + got] + was[at + got..]
  {
    var now := stream[..at] + was[at..];
    assert now[..at] == stream[..at] && now[at + got..] == was[at + got..];
    assert stream[..at] + stream[at..][..got] == stream[..at + got];
  }

  /** Fills the first sz bytes of buf, or as many as come before the stream ends or fails. */
  method RecvLooped(ch: Channel, buf: array<Octet>, sz: nat) returns (r: int, ghost taken: nat)
    requires sz <= buf.Length
    modifies ch, buf
    ensures taken <= sz && taken <= |old(ch.bytes)|
    ensures buf[..] == old(ch.bytes)[..taken] + old(buf[..])[taken..]
    ensures ch.bytes == old(ch.bytes)[taken..]
    ensures r == (if taken == sz then 0 else -1)
    ensures ch.reliable && taken < sz ==> taken == |old(ch.bytes)|
  {
    ghost var stream, was := ch.bytes, buf[..];
    var ptr, remain := 0, sz;
    while remain > 0
      invariant 0 <= ptr <= sz && ptr + remain == sz && ptr <= |stream|
      invariant ch.bytes == stream[ptr..]
      invariant buf[..] == stream[..ptr] + was[ptr..]
    {
      var received := ch.Read(buf, ptr, remain);
      if received == -1 || received == 0 { return -1, ptr; }
      ReadOn(stream, was, ptr, received);
      ptr := ptr + received;
      remain := remain - received;
    }
    return 0, ptr;
  }

  /** What is made of a stream when head bytes of a length word and then body bytes of a message
      are read from it. */
  function Parsed(bytes: seq<Octet>, leftover: seq<Octet>, head: nat, body: nat): Receipt
    requires |leftover| == 4 && head <= 4 && head + body <= |bytes|
  {
    var len := Value(bytes[..head] + leftover[head..]);
    if AllocationSize(len) <= len then Overrun
    else if body < len then Closed
    else Delivered(bytes[head..head + body], bytes[head + body..])
  }

  /** Makes of the bytes it reads what Parsed says; on a stream that does not fail it reads all it
      asks for while there are any, and the result is what Receive says. The buffer delivered
      holds the message and its terminator. */
  method ReceiveMsg(ch: Channel, leftover: seq<Octet>)
    returns (receipt: Receipt, buf: array?<Octet>, ghost head: nat, ghost body: nat)
    requires |leftover| == 4
    modifies ch
    ensures head <= 4 && head + body <= |old(ch.bytes)| && ch.bytes == old(ch.bytes)[head + body..]
    ensures receipt == Parsed(old(ch.bytes), leftover, head, body)
    ensures ch.reliable ==> receipt == Receive(old(ch.bytes), leftover)
    ensures receipt.Delivered? <==> buf != null
    ensures receipt.Delivered? ==> fresh(buf) && buf[..] == receipt.message + ['\0']
  {
    hide Value, Receive, AllocationSize;
    buf, body := null, 0;
    ghost var stream := ch.bytes;
    var len;
    len, head := ReceiveLength(ch, leftover);
    AllocationFits(len);
    if AllocationSize(len) <= len {
      receipt := Overrun;
    } else {
      buf, body := ReceiveText(ch, len);
      assert ch.bytes == stream[head + body..] && stream[head..][..body] == stream[head..head + body];
      if buf == null {
        receipt := Closed;
      } else {
        assert buf[..len] == stream[head..head + body];
        receipt := Delivered(buf[..len], ch.bytes);
      }
    }
    if ch.reliable { ParsedIsReceive(stream, leftover, head, body); }
  }

  /** The first read, into a word that held leftover; its result is not looked at. */
  method ReceiveLength(ch: Channel, leftover: seq<Octet>) returns (len: nat, ghost head: nat)
    requires |leftover| == 4
    modifies ch
    ensures head <= 4 && head <= |old(ch.bytes)| && ch.bytes == old(ch.bytes)[head..]
    ensures ch.reliable && head < 4 ==> head == |old(ch.bytes)|
    ensures len == Value(old(ch.bytes)[..head] + leftover[head..])
  {
    var nlen := new Octet[4](i requires 0 <= i < 4 => leftover[i]);
    assert nlen[..] == leftover;
    var r;
    r, head := RecvLooped(ch, nlen, 4);
    len := Value(nlen[..]);
  }

  /** The second, into a new buffer with room for the terminator; null if it falls short. */
  method ReceiveText(ch: Channel, len: nat) returns (buf: array?<Octet>, ghost body: nat)
    requires AllocationSize(len) > len
    modifies ch
    ensures body <= len && body <= |old(ch.bytes)| && ch.bytes == old(ch.bytes)[body..]
    ensures ch.reliable && body < len ==> body == |old(ch.bytes)|
    ensures buf != null <==> body == len
    ensures buf != null ==> fresh(buf) && buf[..] == old(ch.bytes)[..len] + ['\0']
  {
    var size := (len + 1) % WORD;
    var text := new Octet[size];
    text[len] := '\0';
    var r;
    r, body := RecvLooped(ch, text, len);
    buf := if r == -1 then null else text;
  }

  /** Where reading stops short only at the end of the stream, that is what Receive says. */
  lemma ParsedIsReceive(bytes: seq<Octet>, leftover: seq<Octet>, head: nat, body: nat)
    requires |leftover| == 4 && head <= 4 && head + body <= |bytes|
    requires head < 4 ==> head == |bytes|
    requires var len := Value(bytes[..head] + leftover[head..]);
             AllocationSize(len) <= len || body == len || (body < len && head + body == |bytes|)
    ensures Parsed(bytes, leftover, head, body) == Receive(bytes, leftover)
  {
    hide Value, AllocationSize;
    assert bytes[..head] + leftover[head..] == Filled(leftover, bytes);
    var rest := if |bytes| < 4 then [] else bytes[4..];
    assert rest == bytes[head..];
    assert body <= |rest| && rest[..body] == bytes[head..head + body] && rest[body..] == bytes[head + body..];
  }

  // ---- Both ends together ----

  predicate Text(m: seq<Octet>) {
    |m| < WORD - 1 && forall i :: 0 <= i < |m| ==> m[i] != '\0'
  }

  /** A message without NUL bytes is what its receiver reads from the buffer as a C string. */
  lemma ReceivedText(m: seq<Octet>)
    requires forall i :: 0 <= i < |m| ==> m[i] != '\0'
    ensures Str(m + ['\0']) == m
  {
    StrUnique(m + ['\0'], |m|);
  }

  lemma FramesAppend(ms: seq<seq<Octet>>, m: seq<Octet>)
    ensures Frames(ms + [m]) == Frames(ms) + Frame(m)
  {
    if |ms| == 0 {
      assert [] + [m] == [m] && [m][1..] == [] && Frame(m) + [] == Frame(m);
    } else {
      assert (ms + [m])[1..] == ms[1..] + [m];
      FramesAppend(ms[1..], m);
      assert Frame(ms[0]) + (Frames(ms[1..]) + Frame(m)) == Frame(ms[0]) + Frames(ms[1..]) + Frame(m);
    }
  }

  method SendOne(ch: Channel, m: seq<Octet>)
    requires ch.reliable && Text(m)
    modifies ch
    ensures ch.bytes == old(ch.bytes) + Frame(m)
  {
    hide Frame;
    var bytes := m + ['\0'];
    var buf := new Octet[|m| + 1](i requires 0 <= i < |m| + 1 => bytes[i]);
    assert buf[..] == bytes;
    ReceivedText(m);
    var ok := SendMessage(ch, buf);
    assert buf[..|m|] == m;
  }

  method ReceiveOne(ch: Channel, leftover: seq<Octet>, ghost m: seq<Octet>, ghost more: seq<Octet>)
    returns (text: string)
    requires ch.reliable && Text(m) && |leftover| == 4 && ch.bytes == Frame(m) + more
    modifies ch
    ensures text == m && ch.bytes == more
  {
    hide Frame, Receive, Parsed;
    FrameRoundTrip(m, more, leftover);
    ReceivedText(m);
    ghost var head, body;
    var receipt, buf;
    receipt, buf, head, body := ReceiveMsg(ch, leftover);
    RestOfParsed(Frame(m) + more, leftover, head, body);
    text := Str(buf[..]);
  }

  lemma RestOfParsed(bytes: seq<Octet>, leftover: seq<Octet>, head: nat, body: nat)
    requires |leftover| == 4 && head <= 4 && head + body <= |bytes|
    ensures Parsed(bytes, leftover, head, body).Delivered? ==>
              Parsed(bytes, leftover, head, body).rest == bytes[head + body..]
  {
  }

  /** Texts sent one after another are received as they were, in order, whatever the writes and
      reads in between take at a time. */
  method Exchange(ch: Channel, ms: seq<seq<Octet>>, leftover: seq<Octet>) returns (texts: seq<string>)
    requires ch.reliable && ch.bytes == [] && |leftover| == 4
    requires forall i :: 0 <= i < |ms| ==> Text(ms[i])
    modifies ch
    ensures texts == ms && ch.bytes == []
  {
    hide Frame, Text;
    for i := 0 to |ms|
      invariant ch.bytes == Frames(ms[..i])
    {
      FramesAppend(ms[..i], ms[i]);
      assert ms[..i + 1] == ms[..i] + [ms[i]];
      SendOne(ch, ms[i]);
    }
    assert ms[..|ms|] == ms && ms[0..] == ms;
    texts := [];
    for i := 0 to |ms|
      invariant ch.bytes == Frames(ms[i..]) && texts == ms[..i]
    {
      assert ms[i..][0] == ms[i] && ms[i..][1..] == ms[i + 1..];
      var text := ReceiveOne(ch, leftover, ms[i], Frames(ms[i + 1..]));
      texts := texts + [text];
    }
  }
}
