/** The bytes of a frame in numbers, as section 5.2 of RFC 6455 lays them out: for the frames that are sent,
    and for whatever is read. */
module WebSocketLayout {
  import opened Text
  import opened WebSocketFrames

  /** The extended payload length, most significant byte first. */
  function LengthAt(s: Bytes, extra: nat): int
    requires (extra == 2 || extra == 8) && |s| >= 2 + extra
  {
    if extra == 2 then s[2] as int * 0x100 + s[3] as int
    else
      s[2] as int * 0x100_0000_0000_0000 + s[3] as int * 0x1_0000_0000_0000
      + s[4] as int * 0x100_0000_0000 + s[5] as int * 0x1_0000_0000
      + s[6] as int * 0x100_0000 + s[7] as int * 0x1_0000 + s[8] as int * 0x100 + s[9] as int
  }

  lemma BigEndianStep(s: Bytes, last: bv8)
    ensures BigEndian(s + [last]) == 256 * BigEndian(s) + last as int
  {
    assert (s + [last])[..|s|] == s;
  }

  lemma BigEndianGrows(s: Bytes, a: bv8, b: bv8)
    ensures BigEndian(s + [a, b]) == 0x1_0000 * BigEndian(s) + a as int * 0x100 + b as int
  {
    BigEndianStep(s, a);
    BigEndianStep(s + [a], b);
    assert s + [a] + [b] == s + [a, b];
  }

  lemma BigEndianOfFourMore(s: Bytes, a: bv8, b: bv8, c: bv8, d: bv8)
    ensures BigEndian(s + [a, b] + [c, d]) ==
      0x1_0000_0000 * BigEndian(s) + a as int * 0x100_0000 + b as int * 0x1_0000 + c as int * 0x100 + d as int
  {
    BigEndianGrows(s, a, b);
    BigEndianGrows(s + [a, b], c, d);
  }

  lemma TwoBytes(s: Bytes)
    requires |s| >= 4
    ensures s[2..4] == [] + [s[2], s[3]]
  {
  }

  lemma FourBytes(s: Bytes, at: nat)
    requires 2 <= at && |s| >= at + 4
    ensures s[2..at + 4] == s[2..at] + [s[at], s[at + 1]] + [s[at + 2], s[at + 3]]
  {
  }

  lemma LengthIsBigEndian(s: Bytes, extra: nat)
    requires (extra == 2 || extra == 8) && |s| >= 2 + extra
    ensures BigEndian(s[2..2 + extra]) == LengthAt(s, extra)
  {
    assert s[2..2] == [] && BigEndian([]) == 0;
    if extra == 2 {
      TwoBytes(s);
      BigEndianGrows([], s[2], s[3]);
    } else {
      FourBytes(s, 2);
      FourBytes(s, 6);
      BigEndianOfFourMore(s[2..2], s[2], s[3], s[4], s[5]);
      BigEndianOfFourMore(s[2..6], s[6], s[7], s[8], s[9]);
    }
  }

  lemma SetHighBit(b: bv8)
    requires b as int < 128
    ensures (0x80 | b) as int == 128 + b as int
  {
  }

  lemma HeaderInNumbers(opcode: int, field: nat)
    requires field < 128
    ensures FirstByte(opcode) as int == 128 + opcode % 16 && SecondByte(field) as int == 128 + field
  {
    ByteBack(opcode % 16);
    ByteBack(field);
    SetHighBit(ToByte(opcode % 16));
    SetHighBit(ToByte(field));
  }

  /** The number of length bytes after the second byte: the shortest form that holds the length. */
  function Extra(length: nat): nat
  {
    if length < 126 then 0 else if length <= 65535 then 2 else 8
  }

  /** What is sent: a final, masked frame, with the shortest length form. */
  lemma SentInNumbers(opcode: int, mask: Bytes, payload: Bytes)
    requires |mask| == 4 && |payload| < 0x1_0000_0000_0000_0000
    ensures
      var s, n, extra := FrameBytes(opcode, mask, payload), |payload|, Extra(|payload|);
      && |s| == 2 + extra + 4 + n
      && s[0] as int == 128 + opcode % 16
      && s[1] as int == (if n < 126 then 128 + n else if n <= 65535 then 254 else 255)
      && (extra > 0 ==> LengthAt(s, extra) == n)
      && s[2 + extra..6 + extra] == mask
      && forall i :: 0 <= i < n ==> s[6 + extra + i] == payload[i] ^ mask[i % 4]
  {
    HeaderInNumbers(opcode, LengthField(|payload|));
    SentParts(opcode, mask, payload);
    SentLength(FrameBytes(opcode, mask, payload), |payload|);
  }

  lemma SentParts(opcode: int, mask: Bytes, payload: Bytes)
    requires |mask| == 4 && |payload| < LONG
    ensures
      var s, extra := FrameBytes(opcode, mask, payload), Extra(|payload|);
      && |s| == 6 + extra + |payload| && s[0] == FirstByte(opcode) && s[1] == SecondByte(LengthField(|payload|))
      && s[2..2 + extra] == NetworkOrder(|payload|, extra) && s[2 + extra..6 + extra] == mask
      && forall i :: 0 <= i < |payload| ==> s[6 + extra + i] == payload[i] ^ mask[i % 4]
  {
    var s, extra := FrameBytes(opcode, mask, payload), Extra(|payload|);
    assert s[6 + extra..] == Masked(payload, mask);
    forall i | 0 <= i < |payload|
      ensures s[6 + extra + i] == payload[i] ^ mask[i % 4]
    {
      assert s[6 + extra + i] == Masked(payload, mask)[i];
    }
  }

  lemma SentLength(s: Bytes, n: nat)
    requires Extra(n) > 0 ==> |s| >= 2 + Extra(n) && s[2..2 + Extra(n)] == NetworkOrder(n, Extra(n))
    requires n < 0x1_0000_0000_0000_0000
    ensures Extra(n) > 0 ==> LengthAt(s, Extra(n)) == n
  {
    PowersMatter();
    if Extra(n) > 0 {
      BigEndianOfNetworkOrder(n, Extra(n));
      LengthIsBigEndian(s, Extra(n));
    }
  }

  // ---------------------------------------------------------------------------------------------
  // Reading
  // ---------------------------------------------------------------------------------------------

  lemma BitsInNumbers(b: bv8)
    ensures Opcode(b) == b as int % 16 && Field(b) == b as int % 128 && (IsMasked(b) <==> b as int >= 128)
  {
  }

  function ExtraOf(second: bv8): nat
  {
    if second as int % 128 == 126 then 2 else if second as int % 128 == 127 then 8 else 0
  }

  /** Where the payload of the frame at the start of `s` begins, and how long it is. */
  function PayloadAt(s: Bytes): nat
    requires |s| >= 2
  {
    2 + ExtraOf(s[1]) + if s[1] as int >= 128 then 4 else 0
  }

  function LengthIn(s: Bytes): nat
    requires |s| >= 2 && |s| >= 2 + ExtraOf(s[1])
  {
    if ExtraOf(s[1]) == 0 then s[1] as int % 128 else LengthAt(s, ExtraOf(s[1]))
  }

  lemma HeadInNumbers(s: Bytes)
    requires |s| >= 2
    ensures HeadSize(s[1]) == 2 + ExtraOf(s[1]) && MaskSize(s[1]) == PayloadAt(s) - HeadSize(s[1])
    ensures |s| >= HeadSize(s[1]) ==> FrameSize(s) == PayloadAt(s) + LengthIn(s)
  {
    BitsInNumbers(s[1]);
    var extra := ExtraOf(s[1]);
    if |s| >= 2 + extra && extra > 0 {
      assert s[..2 + extra][2..] == s[2..2 + extra];
      LengthIsBigEndian(s, extra);
    }
  }

  /** The `n` bytes at `at`, unmasked by the four before them when `masked`. */
  predicate PayloadIs(payload: Bytes, s: Bytes, at: nat, n: nat, masked: bool)
  {
    && |payload| == n && at + n <= |s| && (masked ==> at >= 4)
    && forall i :: 0 <= i < n ==> payload[i] == if masked then s[at + i] ^ s[at - 4 + i % 4] else s[at + i]
  }

  /** What is read, from any bytes: a frame, of whatever flags, is taken when all of it is there, and its
      payload is unmasked when its mask bit is set. */
  lemma ReadInNumbers(s: Bytes)
    ensures |s| < 2 || |s| < 2 + ExtraOf(s[1]) || |s| < PayloadAt(s) + LengthIn(s) ==> Parse(s) == None
    ensures |s| >= 2 && |s| >= 2 + ExtraOf(s[1]) && |s| >= PayloadAt(s) + LengthIn(s) ==>
      var at, n, r := PayloadAt(s), LengthIn(s), Parse(s);
      && r.Some? && r.value.0.opcode == s[0] as int % 16 && PayloadIs(r.value.0.payload, s, at, n, s[1] as int >= 128)
      && r.value.1 == s[at + n..]
  {
    if |s| >= 2 {
      HeadInNumbers(s);
      if |s| >= 2 + ExtraOf(s[1]) && |s| >= PayloadAt(s) + LengthIn(s) {
        BitsInNumbers(s[0]);
        BitsInNumbers(s[1]);
        FrameInNumbers(s, PayloadAt(s), LengthIn(s));
      }
    }
  }

  lemma FrameInNumbers(s: Bytes, at: nat, n: nat)
    requires HasFrame(s) && FrameSize(s) == at + n && at == HeadSize(s[1]) + MaskSize(s[1])
    ensures FrameAt(s).opcode == Opcode(s[0]) && PayloadIs(FrameAt(s).payload, s, at, n, IsMasked(s[1]))
  {
    var whole := s[..at + n];
    assert whole[..HeadSize(s[1])] == s[..HeadSize(s[1])];
    WholeInNumbers(whole, at, n);
    PayloadOfPrefix(WholeFrame(whole).payload, s, at, n, IsMasked(s[1]));
  }

  lemma WholeInNumbers(s: Bytes, at: nat, n: nat)
    requires |s| >= 2 && |s| >= HeadSize(s[1]) && |s| == FrameSize(s) == at + n && at == HeadSize(s[1]) + MaskSize(s[1])
    ensures WholeFrame(s).opcode == Opcode(s[0]) && PayloadIs(WholeFrame(s).payload, s, at, n, IsMasked(s[1]))
  {
    UnmaskedPayload(s, HeadSize(s[1]), at, n, IsMasked(s[1]));
  }

  lemma PayloadOfPrefix(payload: Bytes, s: Bytes, at: nat, n: nat, masked: bool)
    requires at + n <= |s| && PayloadIs(payload, s[..at + n], at, n, masked)
    ensures PayloadIs(payload, s, at, n, masked)
  {
  }

  lemma UnmaskedPayload(s: Bytes, h: nat, at: nat, n: nat, masked: bool)
    requires at + n == |s| && at == h + if masked then 4 else 0
    ensures PayloadIs(if masked then Masked(s[at..], s[h..at]) else s[at..], s, at, n, masked)
  {
    if masked {
      forall i | 0 <= i < n
        ensures Masked(s[at..], s[h..at])[i] == s[at + i] ^ s[at - 4 + i % 4]
      {
        UnmaskedByte(s, h, at, i, i % 4);
      }
    }
  }

  lemma UnmaskedByte(s: Bytes, h: nat, at: nat, i: nat, k: nat)
    requires at == h + 4 && at + i < |s| && k == i % 4 && k < 4
    ensures Masked(s[at..], s[h..at])[i] == s[at + i] ^ s[h + k]
  {
    assert s[at..][i] == s[at + i] && s[h..at][k] == s[h + k];
  }

  /** What one read makes of the next frame: text (1) and close (8) are delivered, a ping (9) is answered
      with a pong (10), and anything else is dropped. */
  lemma DeliveredInNumbers(next: Reader, s: Bytes)
    requires Consumes(next)
    ensures Deliver(next, s) ==
      match next(s)
      case None => (Eof, [], [])
      case Some((f, rest)) =>
        if f.opcode == 1 then (WebSocketFrames.Text(f.payload), [], rest)
        else if f.opcode == 8 then (Closed(f.payload), [], rest)
        else
          var (d, pings, left) := Deliver(next, rest);
          (d, (if f.opcode == 9 then [f.payload] else []) + pings, left)
  {
    if next(s).Some? {
      Nothing(Deliver(next, next(s).value.1).1);
    }
  }

  lemma PongsInNumbers(reply: seq<Sent>, pings: seq<Bytes>)
    ensures Pongs(reply, pings) <==>
      |reply| == |pings| && forall i :: 0 <= i < |reply| ==>
        reply[i].Valid() && reply[i].opcode == 10 && reply[i].payload == pings[i]
  {
  }
}
