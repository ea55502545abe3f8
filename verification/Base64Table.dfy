/** Base64 in bits and by table 1 of RFC 4648: what the blocks of both encoders and decoders are in numbers. */
module Base64Table {
  import opened Text
  import opened BlockCoding
  import opened Base64

  /** The characters by code. */
  lemma TableInNumbers(v: nat)
    requires v < 64
    ensures v < 26 ==> Char(v) as int == 65 + v
    ensures 26 <= v < 52 ==> Char(v) as int == 97 + v - 26
    ensures 52 <= v < 62 ==> Char(v) as int == 48 + v - 52
    ensures v == 62 ==> Char(v) as int == 43
    ensures v == 63 ==> Char(v) as int == 47
  {
    AlphabetParts(v);
    if v < 26 { UpperAt(v); } else if v < 52 { LowerAt(v - 26); } else if v < 62 { DigitAt(v - 52); }
  }

  lemma Split(b: Byte)
    ensures b == b / 4 * 4 + b % 4 && b == b / 16 * 16 + b % 16 && b == b / 64 * 64 + b % 64
    ensures 0 <= b / 4 < 64 && 0 <= b / 16 < 16 && 0 <= b / 64 < 4
  {
  }

  /** The four groups of six bits of 24, most significant first. */
  function Groups(n: int): (g: seq<nat>)
    requires 0 <= n < 0x100_0000
    ensures |g| == 4
  {
    [n / 0x4_0000 % 64, n / 0x1000 % 64, n / 0x40 % 64, n % 64]
  }

  lemma SixBits(a: Byte, b: Byte, c: Byte)
    ensures 0 <= Pack(a, b, c) < 0x100_0000
    ensures Groups(Pack(a, b, c)) == [a / 4, a % 4 * 16 + b / 16, b % 16 * 4 + c / 64, c % 64]
  {
    Split(a);
    Split(b);
    Split(c);
    SextetsOf(a / 4, a % 4 * 16 + b / 16, b % 16 * 4 + c / 64, c % 64);
    assert Word(a / 4, a % 4 * 16 + b / 16, b % 16 * 4 + c / 64, c % 64) == Pack(a, b, c);
  }

  lemma EncodedGroups(bs: seq<Byte>, g: seq<nat>)
    requires 1 <= |bs| <= 3 && g == Groups(Bits(bs)) && forall i :: 0 <= i < 4 ==> g[i] < 64
    ensures EncodeBlock(bs) ==
      [Char(g[0]), Char(g[1]), if |bs| > 1 then Char(g[2]) else '=', if |bs| > 2 then Char(g[3]) else '=']
  {
  }

  /** The same of three bytes, byte by byte. */
  function BitGroups(a: Byte, b: Byte, c: Byte): (g: seq<nat>)
    ensures |g| == 4 && forall i :: 0 <= i < 4 ==> g[i] < 64
  {
    [a / 4, a % 4 * 16 + b / 16, b % 16 * 4 + c / 64, c % 64]
  }

  lemma GroupsAgree(a: Byte, b: Byte, c: Byte)
    ensures 0 <= Pack(a, b, c) < 0x100_0000 && Groups(Pack(a, b, c)) == BitGroups(a, b, c)
  {
    SixBits(a, b, c);
  }

  /** Three bytes are four groups of six bits, most significant first; one or two are padded with zero bits
      and equals signs. */
  lemma BlockInNumbers(bs: seq<Byte>)
    requires 1 <= |bs| <= 3
    ensures
      var g := BitGroups(bs[0], if |bs| > 1 then bs[1] else 0, if |bs| > 2 then bs[2] else 0);
      EncodeBlock(bs) == [Char(g[0]), Char(g[1]), if |bs| > 1 then Char(g[2]) else '=', if |bs| > 2 then Char(g[3]) else '=']
  {
    var a: Byte, b: Byte, c: Byte := bs[0], if |bs| > 1 then bs[1] else 0, if |bs| > 2 then bs[2] else 0;
    GroupsAgree(a, b, c);
    EncodedGroups(bs, BitGroups(a, b, c));
  }

  lemma EncodeBlocks(bs: seq<Byte>)
    requires bs != []
    ensures Encode(bs) == EncodeBlock(First(bs)) + Encode(Rest(bs)) && Encode([]) == ""
  {
  }

  /** The encoding, block by block. */
  lemma EncodeInNumbers(bs: seq<Byte>)
    ensures Encode([]) == ""
    ensures 1 <= |bs| <= 3 ==> Encode(bs) == EncodeBlock(bs)
    ensures |bs| > 3 ==> Encode(bs) == EncodeBlock(bs[..3]) + Encode(bs[3..])
  {
    if bs != [] {
      EncodeBlocks(bs);
      if |bs| <= 3 {
        OneBlock(bs);
        Nothing(EncodeBlock(bs));
      }
    }
  }

  lemma OneBlock(bs: seq<Byte>)
    requires 1 <= |bs| <= 3
    ensures First(bs) == bs && Rest(bs) == []
  {
  }

  // ---------------------------------------------------------------------------------------------
  // Decoding
  // ---------------------------------------------------------------------------------------------

  /** A character of the alphabet, by its code. */
  predicate InTable(c: char)
  {
    65 <= c as int <= 90 || 97 <= c as int <= 122 || 48 <= c as int <= 57 || c as int == 43 || c as int == 47
  }

  lemma ValueInNumbers(c: char)
    ensures InTable(c) <==> Value(c) >= 0
    ensures Value(c) >= 0 ==> Char(Value(c)) == c
    ensures Value(c) == PADDING <==> c as int == 61
  {
    if Value(c) >= 0 {
      TableInNumbers(Value(c));
    }
  }

  /** The blocks that are decoded: four characters of the table, of which the last, or the last two, may be
      equals signs; they give three, two or one bytes. */
  lemma AcceptedInNumbers(s: string)
    requires |s| == 4
    ensures DecodeBlock(s).Some? <==>
      InTable(s[0]) && InTable(s[1]) && (InTable(s[3]) || s[3] as int == 61) && (InTable(s[2]) || s[2] as int == 61 == s[3] as int)
    ensures DecodeBlock(s).Some? ==>
      |DecodeBlock(s).value| == if s[2] as int == 61 then 1 else if s[3] as int == 61 then 2 else 3
  {
    ValueInNumbers(s[0]);
    ValueInNumbers(s[1]);
    ValueInNumbers(s[2]);
    ValueInNumbers(s[3]);
    DecodedLength(s);
  }

  lemma DecodedLength(s: string)
    requires |s| == 4
    ensures DecodeBlock(s).Some? <==>
      Value(s[0]) >= 0 && Value(s[1]) >= 0 && Value(s[2]) != INVALID && Value(s[3]) != INVALID
      && (Value(s[2]) == PADDING ==> Value(s[3]) == PADDING)
    ensures DecodeBlock(s).Some? ==>
      |DecodeBlock(s).value| == 1 + (if Value(s[2]) == PADDING then 0 else 1) + if Value(s[3]) == PADDING then 0 else 1
  {
  }
}
