/** WebSocket frames as the broker connector prints and reads them (sections 5.2 and 5.3 of RFC 6455). */
module WebSocketFrames {
  import opened Text

  type Bytes = seq<bv8>

  const TEXT := 0x1
  const CLOSE := 0x8
  const PING := 0x9
  const PONG := 0xA

  datatype Frame = Frame(opcode: nat, payload: Bytes)

  // ---------------------------------------------------------------------------------------------
  // Numbers in network order
  // ---------------------------------------------------------------------------------------------

  function Power(n: nat): nat
  {
    if n == 0 then 1 else 256 * Power(n - 1)
  }

  function BigEndian(s: Bytes): (n: nat)
    ensures n < Power(|s|)
  {
    if s == [] then 0 else 256 * BigEndian(s[..|s| - 1]) + s[|s| - 1] as int
  }

  /** `struct.pack` with a big-endian unsigned field of `size` bytes. */
  function NetworkOrder(n: nat, size: nat): (s: Bytes)
    ensures |s| == size
  {
    if size == 0 then [] else NetworkOrder(n / 256, size - 1) + [ToByte(n % 256)]
  }

  function ToByte(n: nat): bv8
    requires n < 256
  {
    n as bv8
  }

  lemma ByteBack(n: int)
    requires 0 <= n < 256
    ensures (n as bv8) as int == n
  {
    // The cases make the conversion cheap to check.
    if n < 128 {
      if n < 64 { if n < 32 {} else {} } else { if n < 96 {} else {} }
    } else {
      if n < 192 { if n < 160 {} else {} } else { if n < 224 {} else {} }
    }
  }

  lemma {:induction false} BigEndianOfNetworkOrder(n: nat, size: nat)
    requires n < Power(size)
    ensures BigEndian(NetworkOrder(n, size)) == n
  {
    if size > 0 {
      var high := NetworkOrder(n / 256, size - 1);
      assert (high + [ToByte(n % 256)])[..size - 1] == high;
      BigEndianOfNetworkOrder(n / 256, size - 1);
      ByteBack(n % 256);
    }
  }

  // ---------------------------------------------------------------------------------------------
  // Printing
  // ---------------------------------------------------------------------------------------------

  function Masked(payload: Bytes, mask: Bytes): (r: Bytes)
    requires |mask| == 4
    ensures |r| == |payload|
  {
    seq(|payload|, i requires 0 <= i < |payload| => payload[i] ^ mask[i % 4])
  }

  lemma MaskedTwice(payload: Bytes, mask: Bytes)
    requires |mask| == 4
    ensures Masked(Masked(payload, mask), mask) == payload
  {
    forall i | 0 <= i < |payload|
      ensures Masked(Masked(payload, mask), mask)[i] == payload[i]
    {
      XorTwice(payload[i], mask[i % 4]);
    }
  }

  lemma XorTwice(a: bv8, b: bv8)
    ensures (a ^ b) ^ b == a
  {
  }

  const SHORT := 126
  const MEDIUM := 0x1_0000
  const LONG := 0x1_0000_0000_0000_0000

  /** The seven-bit length field, and the number of bytes of the longer field after it. */
  function LengthField(length: nat): (field: nat)
    ensures field < 128
  {
    if length < SHORT then length else if length < MEDIUM then 126 else 127
  }

  function LengthBytes(field: nat): nat
  {
    if field == 126 then 2 else if field == 127 then 8 else 0
  }

  function FirstByte(opcode: int): bv8 { 0x80 as bv8 | ToByte(opcode % 16) }

  function SecondByte(field: nat): bv8
    requires field < 128
  {
    0x80 as bv8 | ToByte(field)
  }

  /** What is sent for a payload that a length field can hold. */
  function FrameBytes(opcode: int, mask: Bytes, payload: Bytes): (s: Bytes)
    requires |mask| == 4 && |payload| < LONG
    ensures |s| == 6 + LengthBytes(LengthField(|payload|)) + |payload|
  {
    var field := LengthField(|payload|);
    [FirstByte(opcode), SecondByte(field)] + NetworkOrder(|payload|, LengthBytes(field)) + mask + Masked(payload, mask)
  }

  // ---------------------------------------------------------------------------------------------
  // Reading
  // ---------------------------------------------------------------------------------------------

  function Opcode(first: bv8): (n: nat)
    ensures n < 16
  {
    assert first & 0x0F < 16;
    (first & 0x0F) as int
  }

  function Field(second: bv8): (n: nat)
    ensures n < 128
  {
    assert second & 0x7F < 128;
    (second & 0x7F) as int
  }

  predicate IsMasked(second: bv8) { second & 0x80 != 0 }

  /** The bytes up to the mask, which say how long the frame is. */
  function HeadSize(second: bv8): nat { 2 + LengthBytes(Field(second)) }

  function MaskSize(second: bv8): nat { if IsMasked(second) then 4 else 0 }

  function PayloadLength(head: Bytes): (n: nat)
    requires |head| >= 2 && |head| == HeadSize(head[1])
    ensures n < LONG
  {
    PowersMatter();
    if |head| == 2 then Field(head[1]) else BigEndian(head[2..])
  }

  lemma PowersMatter()
    ensures Power(2) == MEDIUM && Power(8) == LONG
  {
    assert Power(4) == 0x1_0000_0000;
    assert Power(6) == 0x1_0000_0000_0000;
  }

  /** The size of the frame at the start of a stream that holds its head. */
  function FrameSize(s: Bytes): (n: nat)
    requires |s| >= 2 && |s| >= HeadSize(s[1])
    ensures n >= HeadSize(s[1]) + MaskSize(s[1])
  {
    HeadSize(s[1]) + MaskSize(s[1]) + PayloadLength(s[..HeadSize(s[1])])
  }

  /** The frame that a string of bytes is. */
  function WholeFrame(s: Bytes): (f: Frame)
    requires |s| >= 2 && |s| >= HeadSize(s[1]) && |s| == FrameSize(s)
    ensures |f.payload| < LONG && f.opcode < 16
  {
    var h, m := HeadSize(s[1]), MaskSize(s[1]);
    Frame(Opcode(s[0]), if IsMasked(s[1]) then Masked(s[h + m..], s[h..h + m]) else s[h + m..])
  }

  predicate HasFrame(s: Bytes)
  {
    |s| >= 2 && |s| >= HeadSize(s[1]) && |s| >= FrameSize(s)
  }

  /** The frame at the start of a stream that holds it. */
  function FrameAt(s: Bytes): (f: Frame)
    requires HasFrame(s)
    ensures |f.payload| < LONG && f.opcode < 16
  {
    assert s[..FrameSize(s)][..HeadSize(s[1])] == s[..HeadSize(s[1])];
    WholeFrame(s[..FrameSize(s)])
  }

  /** The first frame of a byte stream and what follows it; None when the stream ends inside it. */
  function Parse(s: Bytes): (r: Option<(Frame, Bytes)>)
    ensures r.Some? ==> |r.value.1| + 2 <= |s| && |r.value.0.payload| < LONG
  {
    if HasFrame(s) then Some((FrameAt(s), s[FrameSize(s)..])) else None
  }

  lemma ParseIgnoresWhatFollows(s: Bytes, more: Bytes)
    requires Parse(s).Some?
    ensures Parse(s + more) == Some((Parse(s).value.0, Parse(s).value.1 + more))
  {
    var n := FrameSize(s);
    HeadStands(s, more);
    assert (s + more)[..n] == s[..n];
    assert (s + more)[n..] == s[n..] + more;
  }

  lemma HeadStands(s: Bytes, more: Bytes)
    requires |s| >= 2 && |s| >= HeadSize(s[1])
    ensures (s + more)[1] == s[1] && FrameSize(s + more) == FrameSize(s)
  {
    var h := HeadSize(s[1]);
    assert (s + more)[..h] == s[..h];
  }

  lemma HeaderBits(opcode: int, field: nat)
    requires field < 128
    ensures Opcode(FirstByte(opcode)) == opcode % 16
    ensures Field(SecondByte(field)) == field && IsMasked(SecondByte(field))
  {
    ByteBack(opcode % 16);
    ByteBack(field);
    SmallByte(opcode % 16, 16);
    SmallByte(field, 128);
    Low4(ToByte(opcode % 16));
    Low7(ToByte(field));
  }

  lemma SmallByte(n: nat, bound: nat)
    requires n < bound && (bound == 16 || bound == 128)
    ensures ToByte(n) < bound as bv8
  {
  }

  lemma Low4(b: bv8)
    requires b < 16
    ensures (0x80 | b) & 0x0F == b
  {
  }

  lemma Low7(b: bv8)
    requires b < 128
    ensures (0x80 | b) & 0x7F == b && (0x80 | b) & 0x80 != 0
  {
  }

  lemma PrintedLength(opcode: int, mask: Bytes, payload: Bytes)
    requires |mask| == 4 && |payload| < LONG
    ensures
      var s := FrameBytes(opcode, mask, payload);
      HeadSize(s[1]) == 2 + LengthBytes(LengthField(|payload|)) && MaskSize(s[1]) == 4 && FrameSize(s) == |s|
  {
    var s, field := FrameBytes(opcode, mask, payload), LengthField(|payload|);
    HeaderBits(opcode, field);
    PowersMatter();
    var head := s[..2 + LengthBytes(field)];
    assert head[2..] == NetworkOrder(|payload|, LengthBytes(field));
    if LengthBytes(field) > 0 {
      BigEndianOfNetworkOrder(|payload|, LengthBytes(field));
    }
  }

  lemma ParseExact(opcode: int, mask: Bytes, payload: Bytes)
    requires |mask| == 4 && |payload| < LONG
    ensures Parse(FrameBytes(opcode, mask, payload)) == Some((Frame(opcode % 16, payload), []))
  {
    var s := FrameBytes(opcode, mask, payload);
    PrintedLength(opcode, mask, payload);
    PrintedWhole(opcode, mask, payload);
    assert s[..|s|] == s && s[|s|..] == [];
  }

  lemma PrintedWhole(opcode: int, mask: Bytes, payload: Bytes)
    requires |mask| == 4 && |payload| < LONG
    requires
      var s := FrameBytes(opcode, mask, payload);
      HeadSize(s[1]) == 2 + LengthBytes(LengthField(|payload|)) && MaskSize(s[1]) == 4 && FrameSize(s) == |s|
    ensures WholeFrame(FrameBytes(opcode, mask, payload)) == Frame(opcode % 16, payload)
  {
    HeaderBits(opcode, LengthField(|payload|));
    PrintedTail(opcode, mask, payload);
    MaskedTwice(payload, mask);
  }

  lemma PrintedTail(opcode: int, mask: Bytes, payload: Bytes)
    requires |mask| == 4 && |payload| < LONG
    ensures
      var s, h := FrameBytes(opcode, mask, payload), 2 + LengthBytes(LengthField(|payload|));
      s[h..h + 4] == mask && s[h + 4..] == Masked(payload, mask)
  {
    var h := 2 + LengthBytes(LengthField(|payload|));
    assert |[FirstByte(opcode), SecondByte(LengthField(|payload|))] + NetworkOrder(|payload|, h - 2)| == h;
  }

  /** Reading a sent frame, whatever follows it, gives its opcode (four bits) and payload and leaves
      exactly what follows: all three forms of the length field. */
  lemma ParseAfterPrint(opcode: int, mask: Bytes, payload: Bytes, tail: Bytes)
    requires |mask| == 4 && |payload| < LONG
    ensures Parse(FrameBytes(opcode, mask, payload) + tail) == Some((Frame(opcode % 16, payload), tail))
  {
    ParseExact(opcode, mask, payload);
    ParseIgnoresWhatFollows(FrameBytes(opcode, mask, payload), tail);
    assert [] + tail == tail;
  }

  /** A stream that ends inside a sent frame yields no frame. */
  lemma NoFrameInAPrefix(opcode: int, mask: Bytes, payload: Bytes, n: nat)
    requires |mask| == 4 && |payload| < LONG && n < |FrameBytes(opcode, mask, payload)|
    ensures Parse(FrameBytes(opcode, mask, payload)[..n]) == None
  {
    var s := FrameBytes(opcode, mask, payload);
    ParseExact(opcode, mask, payload);
    assert s[..n] + s[n..] == s;
    if Parse(s[..n]).Some? {
      ParseIgnoresWhatFollows(s[..n], s[n..]);
    }
  }

  // ---------------------------------------------------------------------------------------------
  // Sequences of frames
  // ---------------------------------------------------------------------------------------------

  /** A frame as it was sent. */
  datatype Sent = Sent(opcode: int, mask: Bytes, payload: Bytes)
  {
    predicate Valid() { |mask| == 4 && |payload| < LONG }

    function Wire(): Bytes
      requires Valid()
    {
      FrameBytes(opcode, mask, payload)
    }

    function Meaning(): Frame
    {
      Frame(opcode % 16, payload)
    }
  }

  predicate AllValid(log: seq<Sent>)
  {
    forall i :: 0 <= i < |log| ==> log[i].Valid()
  }

  function WireOf(log: seq<Sent>): Bytes
    requires AllValid(log)
  {
    if log == [] then [] else log[0].Wire() + WireOf(log[1..])
  }

  function Meanings(log: seq<Sent>): (fs: seq<Frame>)
    ensures |fs| == |log|
  {
    seq(|log|, i requires 0 <= i < |log| => log[i].Meaning())
  }

  /** All frames of a stream, and the bytes of an unfinished one at its end. */
  function ParseAll(s: Bytes): (seq<Frame>, Bytes)
    decreases |s|
  {
    match Parse(s)
    case None => ([], s)
    case Some((f, rest)) =>
      var (fs, left) := ParseAll(rest);
      ([f] + fs, left)
  }

  /** A peer that reads a concatenation of sent frames, cut anywhere inside the next one, gets exactly
      those frames in order. */
  lemma {:induction false} ParseAllOfWire(log: seq<Sent>, next: Sent, n: nat)
    requires AllValid(log) && next.Valid() && n < |next.Wire()|
    ensures ParseAll(WireOf(log) + next.Wire()[..n]) == (Meanings(log), next.Wire()[..n])
  {
    var part := next.Wire()[..n];
    if log == [] {
      NoFrameInAPrefix(next.opcode, next.mask, next.payload, n);
      assert WireOf(log) + part == part;
    } else {
      ParseAllOfWire(log[1..], next, n);
      WireOfCons(log, part);
      MeaningsCons(log);
      SentParses(log[0], WireOf(log[1..]) + part);
      ParseAllCons(WireOf(log) + part);
    }
  }

  lemma SentParses(frame: Sent, tail: Bytes)
    requires frame.Valid()
    ensures Parse(frame.Wire() + tail) == Some((frame.Meaning(), tail))
  {
    ParseAfterPrint(frame.opcode, frame.mask, frame.payload, tail);
  }

  lemma WireOfCons(log: seq<Sent>, part: Bytes)
    requires AllValid(log) && log != []
    ensures WireOf(log) + part == log[0].Wire() + (WireOf(log[1..]) + part)
  {
    Regroup(log[0].Wire(), WireOf(log[1..]), part);
  }

  lemma MeaningsCons(log: seq<Sent>)
    requires log != []
    ensures Meanings(log) == [log[0].Meaning()] + Meanings(log[1..])
  {
  }

  lemma ParseAllCons(s: Bytes)
    requires Parse(s).Some?
    ensures
      var (fs, left) := ParseAll(Parse(s).value.1);
      ParseAll(s) == ([Parse(s).value.0] + fs, left)
  {
  }

  lemma {:induction false} WireOfConcat(a: seq<Sent>, b: seq<Sent>)
    requires AllValid(a) && AllValid(b)
    ensures AllValid(a + b) && WireOf(a + b) == WireOf(a) + WireOf(b)
  {
    if a == [] {
      assert a + b == b;
      assert [] + WireOf(b) == WireOf(b);
    } else {
      assert (a + b)[1..] == a[1..] + b;
      WireOfConcat(a[1..], b);
      assert a[0].Wire() + (WireOf(a[1..]) + WireOf(b)) == (a[0].Wire() + WireOf(a[1..])) + WireOf(b);
    }
  }

  // ---------------------------------------------------------------------------------------------
  // The socket
  // ---------------------------------------------------------------------------------------------

  /** What `websocket_read_json` returns or raises. */
  datatype Delivery = Text(payload: Bytes) | Closed(payload: Bytes) | Eof

  /** The first frame of a stream and what follows it. */
  type Reader = Bytes -> Option<(Frame, Bytes)>

  ghost predicate Consumes(next: Reader)
  {
    forall s :: next(s).Some? ==> |next(s).value.1| < |s|
  }

  /** The first text or close frame of a stream, the pings before it, and the bytes after it. */
  function Deliver(next: Reader, s: Bytes): (r: (Delivery, seq<Bytes>, Bytes))
    requires Consumes(next)
    decreases |s|
  {
    match next(s)
    case None => (Eof, [], [])
    case Some((f, rest)) =>
      if f.opcode == TEXT then (Text(f.payload), [], rest)
      else if f.opcode == CLOSE then (Closed(f.payload), [], rest)
      else
        var (d, pings, left) := Deliver(next, rest);
        (d, if f.opcode == PING then [f.payload] + pings else pings, left)
  }

  /** `reply` answers the pings: one pong each, in order, with the same payload. */
  predicate Pongs(reply: seq<Sent>, pings: seq<Bytes>)
  {
    |reply| == |pings| && forall i :: 0 <= i < |reply| ==>
      reply[i].Valid() && reply[i].opcode == PONG && reply[i].payload == pings[i]
  }

  /** The payload length and mask that follow the first two bytes of a frame, and what follows them. */
  function HeadAfter(second: bv8, s: Bytes): (r: Option<((nat, Bytes), Bytes)>)
    ensures r.Some? ==> |r.value.0.1| == MaskSize(second)
  {
    var ext, m := LengthBytes(Field(second)), MaskSize(second);
    if |s| < ext + m then None
    else Some(((if ext == 0 then Field(second) else BigEndian(s[..ext]), s[ext..ext + m]), s[ext + m..]))
  }

  /** Parsing, in the order in which the bytes are read. */
  function ParseInOrder(s: Bytes): Option<(Frame, Bytes)>
  {
    if |s| < 2 then None
    else
      match HeadAfter(s[1], s[2..])
      case None => None
      case Some(((length, mask), rest)) =>
        if |rest| < length then None
        else
          Some((Frame(Opcode(s[0]), if mask == [] then rest[..length] else Masked(rest[..length], mask)), rest[length..]))
  }

  lemma ParseByParts(s: Bytes)
    ensures Parse(s) == ParseInOrder(s)
  {
    if |s| >= 2 && HeadAfter(s[1], s[2..]).Some? {
      HeadParts(s);
      if HasFrame(s) {
        FrameByParts(s);
      }
    }
  }

  lemma FrameByParts(s: Bytes)
    requires HasFrame(s) && HeadAfter(s[1], s[2..]).Some?
    ensures
      var ((length, mask), rest) := HeadAfter(s[1], s[2..]).value;
      && |rest| >= length && rest[length..] == s[FrameSize(s)..]
      && FrameAt(s) == Frame(Opcode(s[0]), if mask == [] then rest[..length] else Masked(rest[..length], mask))
  {
    var ext, m, n := LengthBytes(Field(s[1])), MaskSize(s[1]), FrameSize(s);
    var head := HeadAfter(s[1], s[2..]).value;
    HeadParts(s);
    assert head.1 == s[2 + ext + m..] && head.0.1 == s[2 + ext..2 + ext + m] && n == 2 + ext + m + head.0.0;
    DropThenTake(s, 2 + ext + m, head.0.0);
    assert head.1[..head.0.0] == s[2 + ext + m..n] && head.1[head.0.0..] == s[n..];
    WholeByParts(s, ext, m, n);
    assert IsMasked(s[1]) <==> head.0.1 != [];
  }

  lemma WholeByParts(s: Bytes, ext: nat, m: nat, n: nat)
    requires HasFrame(s) && n == FrameSize(s) && ext == LengthBytes(Field(s[1])) && m == MaskSize(s[1])
    ensures FrameAt(s) == Frame(Opcode(s[0]),
      if IsMasked(s[1]) then Masked(s[2 + ext + m..n], s[2 + ext..2 + ext + m]) else s[2 + ext + m..n])
  {
    WholeParts(s, ext, m, n);
  }

  lemma DropThenTake(s: Bytes, a: nat, n: nat)
    requires a + n <= |s|
    ensures s[a..][..n] == s[a..a + n] && s[a..][n..] == s[a + n..]
  {
  }

  lemma HeadParts(s: Bytes)
    requires |s| >= 2 && HeadAfter(s[1], s[2..]).Some?
    ensures
      var ext, m := LengthBytes(Field(s[1])), MaskSize(s[1]);
      var ((length, mask), rest) := HeadAfter(s[1], s[2..]).value;
      rest == s[2 + ext + m..] && mask == s[2 + ext..2 + ext + m] && FrameSize(s) == 2 + ext + m + length
  {
    var ext := LengthBytes(Field(s[1]));
    assert s[..2 + ext][2..] == s[2..][..ext];
  }

  lemma WholeParts(s: Bytes, ext: nat, m: nat, n: nat)
    requires 2 + ext + m <= n <= |s|
    ensures s[..n][2 + ext + m..] == s[2 + ext + m..n] && s[..n][2 + ext..2 + ext + m] == s[2 + ext..2 + ext + m]
    ensures s[..n][..2 + ext] == s[..2 + ext]
  {
  }

  function PingPayloads(log: seq<Sent>): seq<Bytes>
  {
    if log == [] then []
    else if log[0].opcode % 16 == PING then [log[0].payload] + PingPayloads(log[1..])
    else PingPayloads(log[1..])
  }

  predicate Ends(frame: Sent) { frame.opcode % 16 == TEXT || frame.opcode % 16 == CLOSE }

  /** What a peer's frames make of one read: the first text or close frame is delivered, the pings before
      it are answered, frames of other kinds are dropped, and what follows stays to be read. */
  lemma {:induction false} DeliverOfSent(before: seq<Sent>, last: Sent, tail: Bytes)
    requires AllValid(before) && last.Valid() && Ends(last)
    requires forall i :: 0 <= i < |before| ==> !Ends(before[i])
    ensures Deliver(Parse, WireOf(before + [last]) + tail) == (
      if last.opcode % 16 == TEXT then Text(last.payload) else Closed(last.payload), PingPayloads(before), tail)
  {
    var stream := WireOf(before + [last]) + tail;
    if before == [] {
      assert before + [last] == [last] && [last][1..] == [];
      assert WireOf([last]) == last.Wire() + [] == last.Wire();
      ParseAfterPrint(last.opcode, last.mask, last.payload, tail);
    } else {
      var first, rest := before[0], before[1..];
      assert !Ends(first);
      assert (before + [last])[1..] == rest + [last];
      assert stream == first.Wire() + (WireOf(rest + [last]) + tail);
      ParseAfterPrint(first.opcode, first.mask, first.payload, WireOf(rest + [last]) + tail);
      DeliverOfSent(rest, last, tail);
    }
  }

  lemma ParseConsumes()
    ensures Consumes(Parse)
  {
  }

  /** Reading got from `start` to `now`; `pings` came in between and `reply` answered them. */
  ghost predicate Answered(next: Reader, start: Bytes, now: Bytes, reply: seq<Sent>, pings: seq<Bytes>)
    requires Consumes(next)
  {
    && Deliver(next, start) == (Deliver(next, now).0, pings + Deliver(next, now).1, Deliver(next, now).2)
    && Pongs(reply, pings)
  }

  lemma AnswerOne(next: Reader, start: Bytes, now: Bytes, reply: seq<Sent>, pings: seq<Bytes>, pong: Sent)
    requires Consumes(next) && Answered(next, start, now, reply, pings)
    requires next(now).Some? && next(now).value.0.opcode == PING
    requires pong.Valid() && pong.opcode == PONG && pong.payload == next(now).value.0.payload
    ensures Answered(next, start, next(now).value.1, reply + [pong], pings + [pong.payload])
  {
    Regroup(pings, [pong.payload], Deliver(next, next(now).value.1).1);
    assert Pongs(reply + [pong], pings + [pong.payload]);
  }

  lemma SkipOne(next: Reader, start: Bytes, now: Bytes, reply: seq<Sent>, pings: seq<Bytes>)
    requires Consumes(next) && Answered(next, start, now, reply, pings)
    requires next(now).Some?
    requires var op := next(now).value.0.opcode; op != PING && op != TEXT && op != CLOSE
    ensures Answered(next, start, next(now).value.1, reply, pings)
  {
  }

  lemma Delivered(next: Reader, start: Bytes, now: Bytes, reply: seq<Sent>, pings: seq<Bytes>)
    requires Consumes(next) && Answered(next, start, now, reply, pings) && Deliver(next, now).1 == []
    ensures Deliver(next, start) == (Deliver(next, now).0, pings, Deliver(next, now).2)
  {
    assert pings + [] == pings;
  }

  /** `next` reads as `Parse` does. */
  ghost predicate Reads(next: Reader)
  {
    Consumes(next) && forall s {:trigger Parse(s)} :: next(s) == Parse(s)
  }

  class Socket {
    /** The bytes the peer sends before it closes the connection, from the next one to be received. */
    var inbound: Bytes
    /** The bytes sent so far, and the frames they are. */
    var wire: Bytes
    ghost var log: seq<Sent>

    ghost predicate Valid()
      reads this`wire, this`log
    {
      AllValid(log) && wire == WireOf(log)
    }

    constructor (stream: Bytes)
      ensures Valid() && inbound == stream && log == []
    {
      inbound, wire, log := stream, [], [];
    }

    /** Any non-empty part of what is to come, at most `size` bytes; nothing at the end. */
    method Recv(size: nat) returns (chunk: Bytes)
      requires size > 0
      modifies this`inbound
      ensures chunk + inbound == old(inbound) && |chunk| <= size
      ensures chunk == [] <==> old(inbound) == []
    {
      if inbound == [] { return []; }
      var n: nat :| 0 < n <= |inbound| && n <= size;
      chunk := inbound[..n];
      inbound := inbound[n..];
    }

    /** Exactly the next `size` bytes, or None when there are fewer. */
    method RecvExact(size: nat) returns (r: Option<Bytes>)
      modifies this`inbound
      ensures |old(inbound)| >= size ==> r == Some(old(inbound)[..size]) && inbound == old(inbound)[size..]
      ensures |old(inbound)| < size ==> r == None && inbound == []
    {
      var chunks: Bytes := [];
      while |chunks| < size
        invariant |chunks| <= size && chunks + inbound == old(inbound)
      {
        var chunk := Recv(size - |chunks|);
        if chunk == [] { return None; }
        chunks := chunks + chunk;
      }
      assert old(inbound)[..size] == chunks && old(inbound)[size..] == inbound;
      r := Some(chunks);
    }

    /** The extended length field and the mask, as the code reads them after the first two bytes. */
    method ReadHead(second: bv8) returns (r: Option<(nat, Bytes)>)
      modifies this`inbound
      ensures HeadAfter(second, old(inbound)).Some? ==>
        r == Some(HeadAfter(second, old(inbound)).value.0) && inbound == HeadAfter(second, old(inbound)).value.1
      ensures HeadAfter(second, old(inbound)).None? ==> r == None && inbound == []
    {
      ghost var s, ext := inbound, LengthBytes(Field(second));
      var length := Field(second);
      if length == 126 {
        var field := RecvExact(2);
        if field == None { return None; }
        length := BigEndian(field.value);
      } else if length == 127 {
        var field := RecvExact(8);
        if field == None { return None; }
        length := BigEndian(field.value);
      }
      assert inbound == s[ext..];
      var mask: Bytes := [];
      if IsMasked(second) {
        var m := RecvExact(4);
        if m == None { return None; }
        mask := m.value;
        assert s[ext..][..4] == s[ext..ext + 4] && s[ext..][4..] == s[ext + 4..];
      }
      r := Some((length, mask));
    }

    /** However `recv` splits the stream, the result is that of parsing it. */
    method ReadFrame() returns (r: Option<Frame>)
      modifies this`inbound
      ensures Parse(old(inbound)).Some? ==>
        r == Some(Parse(old(inbound)).value.0) && inbound == Parse(old(inbound)).value.1
      ensures Parse(old(inbound)).None? ==> r == None && inbound == []
    {
      ghost var stream := inbound;
      ParseByParts(stream);
      var first := RecvExact(2);
      if first == None { return None; }
      var head := ReadHead(first.value[1]);
      if head == None { return None; }
      var (length, mask) := head.value;
      var body: Option<Bytes> := Some([]);
      if length > 0 {
        body := RecvExact(length);
      }
      if body == None { return None; }
      r := Some(Frame(Opcode(first.value[0]), if mask == [] then body.value else Masked(body.value, mask)));
    }

    /** Nothing is sent when no length field can hold the payload's length. */
    method SendFrame(opcode: int, payload: Bytes) returns (sent: bool, ghost frame: Sent)
      requires Valid()
      modifies this`wire, this`log
      ensures Valid() && sent == (|payload| < LONG)
      ensures sent ==> log == old(log) + [frame] && frame.Valid() && frame.opcode == opcode && frame.payload == payload
      ensures sent ==> wire == old(wire) + FrameBytes(opcode, frame.mask, payload)
      ensures !sent ==> log == old(log) && wire == old(wire)
    {
      var a: bv8, b: bv8, c: bv8, d: bv8 := *, *, *, *;
      var mask := [a, b, c, d];
      frame := Sent(opcode, mask, payload);
      if |payload| >= LONG { return false, frame; }
      wire := wire + FrameBytes(opcode, mask, payload);
      WireOfConcat(log, [frame]);
      assert WireOf([frame]) == frame.Wire() + [] == frame.Wire();
      log := log + [frame];
      sent := true;
    }

    method AnswerPing(payload: Bytes, ghost next: Reader, ghost start: Bytes, ghost before: Bytes,
                      ghost reply: seq<Sent>, ghost pings: seq<Bytes>) returns (ghost pong: Sent)
      requires Valid() && Consumes(next) && Answered(next, start, before, reply, pings)
      requires next(before) == Some((Frame(PING, payload), inbound)) && |payload| < LONG
      modifies this`wire, this`log
      ensures Valid() && log == old(log) + [pong] && Answered(next, start, inbound, reply + [pong], pings + [payload])
    {
      var sent;
      sent, pong := SendFrame(PONG, payload);
      AnswerOne(next, start, before, reply, pings, pong);
    }

    /** Reads to the next text frame, answering pings on the way; a close frame or the end of the
        stream is an error.  What is returned and answered depends on the stream alone. */
    method ReadJson() returns (d: Delivery, ghost reply: seq<Sent>)
      requires Valid()
      modifies this
      ensures Valid() && Consumes(Parse)
      ensures d == Deliver(Parse, old(inbound)).0 && inbound == Deliver(Parse, old(inbound)).2
      ensures log == old(log) + reply && Pongs(reply, Deliver(Parse, old(inbound)).1)
    {
      ParseConsumes();
      d, reply := ReadFrames(Parse);
    }

    method ReadFrames(ghost next: Reader) returns (d: Delivery, ghost reply: seq<Sent>)
      requires Valid() && Reads(next)
      modifies this
      ensures Valid() && d == Deliver(next, old(inbound)).0 && inbound == Deliver(next, old(inbound)).2
      ensures log == old(log) + reply && Pongs(reply, Deliver(next, old(inbound)).1)
    {
      reply := [];
      ghost var stream := inbound;
      ghost var pings: seq<Bytes> := [];
      assert pings + Deliver(next, inbound).1 == Deliver(next, inbound).1;
      while true
        invariant Valid() && log == old(log) + reply && Answered(next, stream, inbound, reply, pings)
        decreases |inbound|
      {
        ghost var before := inbound;
        var frame := ReadFrame();
        if frame == None {
          Delivered(next, stream, before, reply, pings);
          return Eof, reply;
        }
        var Frame(opcode, payload) := frame.value;
        if opcode == TEXT {
          Delivered(next, stream, before, reply, pings);
          return Text(payload), reply;
        }
        if opcode == CLOSE {
          Delivered(next, stream, before, reply, pings);
          return Closed(payload), reply;
        }
        if opcode == PING {
          ghost var pong := AnswerPing(payload, next, stream, before, reply, pings);
          Regroup(old(log), reply, [pong]);
          reply, pings := reply + [pong], pings + [payload];
        } else {
          SkipOne(next, stream, before, reply, pings);
        }
      }
    }
  }
}
