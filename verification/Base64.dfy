/** Base64 (section 4 of RFC 4648): the client's encoder and lenient decoder, the key tool's encoder and
    strict decoder. */
module Base64 {
  import opened Text
  import opened BlockCoding

  // ---------------------------------------------------------------------------------------------
  // The alphabet
  // ---------------------------------------------------------------------------------------------

  const UPPER := "ABCDEFGHIJKLMNOPQRSTUVWXYZ"
  const LOWER := "abcdefghijklmnopqrstuvwxyz"
  const DIGITS := "0123456789"
  const ALPHABET := UPPER + LOWER + DIGITS + "+/"

  const PADDING := -2
  const INVALID := -1

  /** The value of a character, as the key tool finds it. */
  function Value(c: char): (v: int)
    ensures -2 <= v < 64
  {
    if 'A' <= c <= 'Z' then c as int - 'A' as int
    else if 'a' <= c <= 'z' then 26 + (c as int - 'a' as int)
    else if '0' <= c <= '9' then 52 + (c as int - '0' as int)
    else if c == '+' then 62
    else if c == '/' then 63
    else if c == '=' then PADDING
    else INVALID
  }

  lemma UpperAt(k: nat)
    requires k < 26
    ensures UPPER[k] as int == 'A' as int + k
  {
  }

  lemma LowerAt(k: nat)
    requires k < 26
    ensures LOWER[k] as int == 'a' as int + k
  {
  }

  lemma DigitAt(k: nat)
    requires k < 10
    ensures DIGITS[k] as int == '0' as int + k
  {
  }

  lemma AlphabetParts(k: nat)
    requires k < 64
    ensures |UPPER| == 26 && |LOWER| == 26 && |DIGITS| == 10 && |ALPHABET| == 64
    ensures k < 26 ==> ALPHABET[k] == UPPER[k]
    ensures 26 <= k < 52 ==> ALPHABET[k] == LOWER[k - 26]
    ensures 52 <= k < 62 ==> ALPHABET[k] == DIGITS[k - 52]
    ensures k == 62 ==> ALPHABET[k] == '+'
    ensures k == 63 ==> ALPHABET[k] == '/'
  {
  }

  /** The value of the k-th character is k. */
  lemma ValueOfAlphabet(k: nat)
    requires k < 64
    ensures |ALPHABET| == 64 && Value(ALPHABET[k]) == k
  {
    AlphabetParts(k);
    if k < 26 {
      UpperAt(k);
    } else if k < 52 {
      LowerAt(k - 26);
    } else if k < 62 {
      DigitAt(k - 52);
    }
  }

  /** Only the k-th character has the value k. */
  lemma AlphabetOfValue(c: char)
    requires Value(c) >= 0
    ensures |ALPHABET| == 64 && ALPHABET[Value(c)] == c
  {
    var k := Value(c);
    AlphabetParts(k);
    if k < 26 {
      UpperAt(k);
    } else if k < 52 {
      LowerAt(k - 26);
    } else if k < 62 {
      DigitAt(k - 52);
    }
  }

  /** The client's table gives the same values. */
  method MakeDecodeTable() returns (t: array<int>)
    ensures fresh(t) && t.Length == 256
    ensures forall c: char :: c as int < 256 ==> t[c as int] == Value(c)
  {
    t := new int[256](_ => INVALID);
    ValueOfAlphabet(0);
    for i := 0 to 64
      invariant forall c: char :: c as int < 256 ==>
        t[c as int] == if 0 <= Value(c) < i then Value(c) else INVALID
    {
      ValueOfAlphabet(i);
      var a := ALPHABET[i];
      assert a as int < 256;
      t[a as int] := i;
      forall c: char | c as int < 256
        ensures t[c as int] == if 0 <= Value(c) < i + 1 then Value(c) else INVALID
      {
        if Value(c) == i {
          AlphabetOfValue(c);
        }
      }
    }
    t['=' as int] := PADDING;
  }

  // ---------------------------------------------------------------------------------------------
  // Blocks
  // ---------------------------------------------------------------------------------------------

  function Char(v: nat): char
    requires v < 64
  {
    ALPHABET[v]
  }

  function Pack(a: int, b: int, c: int): int { a * 0x1_0000 + b * 0x100 + c }

  /** The 24 bits of up to three bytes. */
  function Bits(bs: seq<Byte>): (n: int)
    requires 1 <= |bs| <= 3
    ensures 0 <= n < 0x100_0000
  {
    Pack(bs[0], if |bs| > 1 then bs[1] else 0, if |bs| > 2 then bs[2] else 0)
  }

  function EncodeBlock(bs: seq<Byte>): (s: string)
    requires 1 <= |bs| <= 3
    ensures |s| == 4
  {
    var n := Bits(bs);
    [Char(n / 0x4_0000 % 64), Char(n / 0x1000 % 64),
     if |bs| > 1 then Char(n / 0x40 % 64) else '=', if |bs| > 2 then Char(n % 64) else '=']
  }

  function DecodeBlock(s: string): Option<seq<Byte>>
    requires |s| == 4
  {
    var v0, v1, v2, v3 := Value(s[0]), Value(s[1]), Value(s[2]), Value(s[3]);
    if v0 < 0 || v1 < 0 || v2 == INVALID || v3 == INVALID || (v2 == PADDING && v3 != PADDING) then None
    else
      Some(Unpack(Word(v0, v1, if v2 < 0 then 0 else v2, if v3 < 0 then 0 else v3), v2 == PADDING, v3 == PADDING))
  }

  function Word(v0: int, v1: int, v2: int, v3: int): int { v0 * 0x4_0000 + v1 * 0x1000 + v2 * 0x40 + v3 }

  /** One byte, and a second and third where there is no padding. */
  function Unpack(n: int, skipSecond: bool, skipThird: bool): seq<Byte>
    requires 0 <= n < 0x100_0000
  {
    var first: Byte, second: Byte, third: Byte := n / 0x1_0000, n / 0x100 % 256, n % 256;
    [first] + (if skipSecond then [] else [second]) + if skipThird then [] else [third]
  }

  lemma Sextets(n: nat)
    requires n < 0x100_0000
    ensures n == n / 0x4_0000 % 64 * 0x4_0000 + n / 0x1000 % 64 * 0x1000 + n / 0x40 % 64 * 0x40 + n % 64
  {
    assert n / 0x1000 == n / 0x40 / 0x40;
    assert n / 0x4_0000 == n / 0x1000 / 0x40;
  }

  lemma DivideBack(q: int, r: int)
    requires 0 <= r < 256
    ensures (q * 256 + r) / 256 == q && (q * 256 + r) % 256 == r
  {
  }

  lemma Octets(a: int, b: int, c: int)
    requires 0 <= a < 256 && 0 <= b < 256 && 0 <= c < 256
    ensures
      var n := Pack(a, b, c);
      n / 0x1_0000 == a && n / 0x100 % 256 == b && n % 256 == c
  {
    DivideBack(a * 256 + b, c);
    DivideBack(a, b);
    assert Pack(a, b, c) == (a * 256 + b) * 256 + c;
  }

  lemma LowSextets(bs: seq<Byte>)
    requires 1 <= |bs| <= 3
    ensures |bs| < 2 ==> Bits(bs) / 0x40 % 64 == 0
    ensures |bs| < 3 ==> Bits(bs) % 64 == 0
  {
    var a: int := bs[0];
    if |bs| == 1 {
      assert Bits(bs) == a * 1024 * 64;
      assert a * 1024 == a * 16 * 64;
    } else if |bs| == 2 {
      var b: int := bs[1];
      assert Bits(bs) == (a * 1024 + b * 4) * 64;
    }
  }

  lemma ValuesOfSextets(n: int)
    requires 0 <= n < 0x100_0000
    ensures Value(Char(n / 0x4_0000 % 64)) == n / 0x4_0000 % 64 && Value(Char(n / 0x1000 % 64)) == n / 0x1000 % 64
    ensures Value(Char(n / 0x40 % 64)) == n / 0x40 % 64 && Value(Char(n % 64)) == n % 64
  {
    ValueOfAlphabet(n / 0x4_0000 % 64);
    ValueOfAlphabet(n / 0x1000 % 64);
    ValueOfAlphabet(n / 0x40 % 64);
    ValueOfAlphabet(n % 64);
  }

  lemma BlockComesBack(bs: seq<Byte>)
    requires 1 <= |bs| <= 3
    ensures DecodeBlock(EncodeBlock(bs)) == Some(bs)
  {
    var n := Bits(bs);
    ValuesOfSextets(n);
    WordOfSextets(bs);
    UnpackBits(bs);
  }

  lemma WordOfSextets(bs: seq<Byte>)
    requires 1 <= |bs| <= 3
    ensures
      var n := Bits(bs);
      Word(n / 0x4_0000 % 64, n / 0x1000 % 64, if |bs| > 1 then n / 0x40 % 64 else 0, if |bs| > 2 then n % 64 else 0) == n
  {
    Sextets(Bits(bs));
    LowSextets(bs);
  }

  lemma UnpackBits(bs: seq<Byte>)
    requires 1 <= |bs| <= 3
    ensures Unpack(Bits(bs), |bs| < 2, |bs| < 3) == bs
  {
    Octets(bs[0], if |bs| > 1 then bs[1] else 0, if |bs| > 2 then bs[2] else 0);
  }

  /** The code of section 4. */
  function Standard(): Code
  {
    Code((bs: seq<Byte>) => if 1 <= |bs| <= 3 then EncodeBlock(bs) else "",
      (s: string) => if |s| == 4 then DecodeBlock(s) else None,
      (s: string) => |s| == 4 && Padded(s))
  }

  predicate Padded(s: string)
    requires |s| == 4
  {
    Value(s[2]) == PADDING || Value(s[3]) == PADDING
  }

  lemma PaddedIsShort(b: seq<Byte>)
    requires 1 <= |b| <= 3
    ensures Padded(EncodeBlock(b)) <==> |b| < 3
  {
    ValuesOfSextets(Bits(b));
  }

  lemma StandardIsFaithful()
    ensures Faithful(Standard())
  {
    forall bs: seq<Byte> | 1 <= |bs| <= 3
      ensures
        var c := Standard();
        |c.encode(bs)| == 4 && c.decode(c.encode(bs)) == Some(bs) && (c.padded(c.encode(bs)) <==> |bs| < 3)
    {
      BlockComesBack(bs);
      PaddedIsShort(bs);
      assert Standard().encode(bs) == EncodeBlock(bs);
    }
  }

  // ---------------------------------------------------------------------------------------------
  // The two encoders
  // ---------------------------------------------------------------------------------------------

  function Encode(bs: seq<Byte>): string { Encoded(Standard(), bs) }

  /** `c` encodes as the standard does. */
  ghost predicate Encodes(c: Code)
  {
    forall bs: seq<Byte> {:trigger EncodeBlock(bs)} :: 1 <= |bs| <= 3 ==> c.encode(bs) == EncodeBlock(bs)
  }

  lemma StandardEncodes()
    ensures Encodes(Standard())
  {
  }

  function Quad(n: int, two: bool, three: bool): string
    requires 0 <= n < 0x100_0000
  {
    [Char(n / 0x4_0000 % 64), Char(n / 0x1000 % 64),
     if two then Char(n / 0x40 % 64) else '=', if three then Char(n % 64) else '=']
  }

  lemma QuadIsBlock(bs: seq<Byte>)
    requires 1 <= |bs| <= 3
    ensures EncodeBlock(bs) == Quad(Bits(bs), |bs| > 1, |bs| > 2)
  {
  }

  /** Three bytes at a time, then what is left over. */
  method EncodeByTriples(bs: seq<Byte>) returns (out: string)
    ensures out == Encode(bs)
  {
    StandardEncodes();
    out := Triples(bs, Standard());
  }

  method Triples(bs: seq<Byte>, ghost c: Code) returns (out: string)
    requires Encodes(c)
    ensures out == Encoded(c, bs)
  {
    out := "";
    var i := 0;
    assert bs[0..] == bs;
    while i + 3 <= |bs|
      invariant i <= |bs| && out + Encoded(c, bs[i..]) == Encoded(c, bs)
      decreases |bs| - i
    {
      EncodeStep(c, bs, i, out);
      QuadIsBlock([bs[i], bs[i + 1], bs[i + 2]]);
      var n := Pack(bs[i], bs[i + 1], bs[i + 2]);
      out := out + Quad(n, true, true);
      i := i + 3;
    }
    LastBlock(c, bs, i, out);
    var rem := |bs| - i;
    if rem == 1 {
      assert bs[i..] == [bs[i]];
      QuadIsBlock([bs[i]]);
      out := out + Quad(Pack(bs[i], 0, 0), false, false);
    } else if rem == 2 {
      assert bs[i..] == [bs[i], bs[i + 1]];
      QuadIsBlock([bs[i], bs[i + 1]]);
      out := out + Quad(Pack(bs[i], bs[i + 1], 0), true, false);
    }
  }

  /** The key tool's loop: bytes beyond the end count as 0 and their characters are padding. */
  method EncodePadded(bs: seq<Byte>) returns (out: string)
    ensures out == Encode(bs)
  {
    StandardEncodes();
    out := PaddedTriples(bs, Standard());
  }

  method PaddedTriples(bs: seq<Byte>, ghost c: Code) returns (out: string)
    requires Encodes(c)
    ensures out == Encoded(c, bs)
  {
    out := "";
    var i := 0;
    assert bs[0..] == bs;
    while i < |bs|
      invariant out + Encoded(c, if i <= |bs| then bs[i..] else []) == Encoded(c, bs)
      decreases |bs| - i
    {
      var b1: int := if i + 1 < |bs| then bs[i + 1] else 0;
      var b2: int := if i + 2 < |bs| then bs[i + 2] else 0;
      var n := Pack(bs[i], b1, b2);
      ghost var block := if i + 3 <= |bs| then [bs[i], bs[i + 1], bs[i + 2]] else bs[i..];
      QuadIsBlock(block);
      if i + 3 <= |bs| {
        EncodeStep(c, bs, i, out);
      } else {
        LastBlock(c, bs, i, out);
      }
      out := out + Quad(n, i + 1 < |bs|, i + 2 < |bs|);
      i := i + 3;
      Nothing(out);
    }
    Nothing(out);
  }

  // ---------------------------------------------------------------------------------------------
  // The two decoders
  // ---------------------------------------------------------------------------------------------

  /** The text without its white space. */
  function Cleaned(s: string): string
  {
    if s == "" then ""
    else Cleaned(s[..|s| - 1]) + if IsSpace(s[|s| - 1]) then "" else [s[|s| - 1]]
  }

  /** The client's decoder ignores white space and allows padding in any block. */
  function DecodeLenient(s: string): Option<seq<Byte>>
  {
    if |Cleaned(s)| % 4 != 0 then None else Decoded(Standard(), Cleaned(s))
  }

  /** The key tool's decoder takes no white space and no empty text, and padding in the last block only. */
  function DecodeStrict(s: string): Option<seq<Byte>>
  {
    if s == "" || |s| % 4 != 0 then None else StrictlyDecoded(Standard(), s)
  }

  predicate Chars(s: string) { forall i :: 0 <= i < |s| ==> s[i] as int < 256 }

  method Clean(s: string) returns (cleaned: string)
    ensures cleaned == Cleaned(s)
  {
    cleaned := "";
    for i := 0 to |s|
      invariant cleaned == Cleaned(s[..i])
    {
      assert s[..i + 1][..i] == s[..i];
      if IsSpace(s[i]) {
        Nothing(cleaned);
        continue;
      }
      cleaned := cleaned + [s[i]];
    }
    assert s[..|s|] == s;
  }

  lemma {:induction false} CleanedChars(s: string)
    requires Chars(s)
    ensures Chars(Cleaned(s))
  {
    if s != "" {
      CleanedChars(s[..|s| - 1]);
    }
  }

  predicate IsTable(t: array<int>)
    reads t
  {
    t.Length == 256 && forall c: char :: c as int < 256 ==> t[c as int] == Value(c)
  }

  /** One block of the client's decoder, by its table. */
  method TakeBlock(t: array<int>, s: string) returns (ok: bool, bytes: seq<Byte>)
    requires IsTable(t) && |s| == 4 && Chars(s)
    ensures ok == DecodeBlock(s).Some? && (ok ==> bytes == DecodeBlock(s).value)
  {
    bytes := [];
    var v0, v1, v2, v3 := t[s[0] as int], t[s[1] as int], t[s[2] as int], t[s[3] as int];
    assert v0 == Value(s[0]) && v1 == Value(s[1]) && v2 == Value(s[2]) && v3 == Value(s[3]);
    if v0 < 0 || v1 < 0 { return false, bytes; }
    if v2 == PADDING && v3 != PADDING { return false, bytes; }
    if (v2 < 0 && v2 != PADDING) || (v3 < 0 && v3 != PADDING) { return false, bytes; }
    var n := Word(v0, v1, if v2 == PADDING then 0 else v2, if v3 == PADDING then 0 else v3);
    ok, bytes := true, Unpack(n, v2 == PADDING, v3 == PADDING);
  }

  /** `c` decodes as the standard does. */
  ghost predicate Decodes(c: Code)
  {
    forall s {:trigger DecodeBlock(s)} :: |s| == 4 ==> c.decode(s) == DecodeBlock(s) && c.padded(s) == Padded(s)
  }

  lemma StandardDecodes()
    ensures Decodes(Standard())
  {
  }

  method DecodeLeniently(b64: string) returns (ok: bool, out: seq<Byte>)
    requires Chars(b64)
    ensures ok == DecodeLenient(b64).Some? && (ok ==> out == DecodeLenient(b64).value)
  {
    var table := MakeDecodeTable();
    var cleaned := Clean(b64);
    CleanedChars(b64);
    out := [];
    if cleaned == "" { return true, out; }
    if |cleaned| % 4 != 0 { return false, out; }
    StandardDecodes();
    ok, out := TakeBlocks(table, cleaned, Standard());
  }

  lemma RoomForBlock(i: int, n: int)
    requires 0 <= i < n && i % 4 == 0 && n % 4 == 0
    ensures i + 4 <= n && (i + 4) % 4 == 0
  {
  }

  lemma CharsOfPart(s: string, i: nat, j: nat)
    requires Chars(s) && i <= j <= |s|
    ensures Chars(s[i..j])
  {
  }

  method TakeBlocks(table: array<int>, cleaned: string, ghost c: Code) returns (ok: bool, out: seq<Byte>)
    requires IsTable(table) && Chars(cleaned) && |cleaned| % 4 == 0 && Decodes(c)
    ensures ok == Decoded(c, cleaned).Some? && (ok ==> out == Decoded(c, cleaned).value)
  {
    out := [];
    ghost var want := Decoded(c, cleaned);
    var i := 0;
    StartOfBlocks(c, cleaned);
    while i < |cleaned|
      invariant 0 <= i <= |cleaned| && i % 4 == 0 && want == Prefixed(Some(out), Decoded(c, cleaned[i..]))
      decreases |cleaned| - i
    {
      RoomForBlock(i, |cleaned|);
      DecodeStep(c, cleaned, i, out);
      var block := cleaned[i..i + 4];
      CharsOfPart(cleaned, i, i + 4);
      var bytes;
      ok, bytes := TakeBlock(table, block);
      if !ok { return; }
      out := out + bytes;
      i := i + 4;
    }
    EndOfBlocks(c, cleaned, out);
    ok := true;
  }

  method DecodeStrictly(text: string) returns (ok: bool, out: seq<Byte>)
    ensures ok == DecodeStrict(text).Some? && (ok ==> out == DecodeStrict(text).value)
  {
    if text == "" || |text| % 4 != 0 { return false, []; }
    StandardDecodes();
    ok, out := TakeStrictBlocks(text, Standard());
  }

  method TakeStrictBlock(s: string, last: bool) returns (ok: bool, bytes: seq<Byte>)
    requires |s| == 4
    ensures ok == (DecodeBlock(s).Some? && (last || !Padded(s))) && (ok ==> bytes == DecodeBlock(s).value)
  {
    var a, b, c, d := Value(s[0]), Value(s[1]), Value(s[2]), Value(s[3]);
    if a < 0 || b < 0 || c == INVALID || d == INVALID { return false, []; }
    var n := Word(a, b, if c < 0 then 0 else c, if d < 0 then 0 else d);
    bytes := Unpack(n, c == PADDING, d == PADDING);
    ok := !((c == PADDING && d != PADDING) || (!last && (c == PADDING || d == PADDING)));
  }

  method TakeStrictBlocks(text: string, ghost code: Code) returns (ok: bool, out: seq<Byte>)
    requires |text| % 4 == 0 && Decodes(code)
    ensures ok == StrictlyDecoded(code, text).Some? && (ok ==> out == StrictlyDecoded(code, text).value)
  {
    out := [];
    ghost var want := StrictlyDecoded(code, text);
    StartOfBlocks(code, text);
    var i := 0;
    while i < |text|
      invariant 0 <= i <= |text| && i % 4 == 0 && want == Prefixed(Some(out), StrictlyDecoded(code, text[i..]))
      decreases |text| - i
    {
      RoomForBlock(i, |text|);
      StrictStep(code, text, i, out);
      var bytes;
      ok, bytes := TakeStrictBlock(text[i..i + 4], i + 4 == |text|);
      if !ok { return; }
      out := out + bytes;
      i := i + 4;
    }
    EndOfBlocks(code, text, out);
    ok := true;
  }

  // ---------------------------------------------------------------------------------------------
  // Round trips
  // ---------------------------------------------------------------------------------------------

  /** The lenient decoder inverts the encoder, white space inserted anywhere. */
  lemma LenientInvertsEncode(s: string, bs: seq<Byte>)
    requires Cleaned(s) == Encode(bs)
    ensures DecodeLenient(s) == Some(bs)
  {
    StandardIsFaithful();
    BlocksComeBack(Standard(), bs);
  }

  /** The strict decoder inverts it too, except that it refuses the empty text. */
  lemma StrictInvertsEncode(bs: seq<Byte>)
    ensures DecodeStrict(Encode(bs)) == if bs == [] then None else Some(bs)
  {
    StandardIsFaithful();
    BlocksComeBack(Standard(), bs);
    EncodedLength(Standard(), bs);
  }

  lemma {:induction false} CleanedSame(s: string)
    ensures Cleaned(s) == s <==> NoSpace(s)
    ensures |Cleaned(s)| <= |s|
  {
    if s != "" {
      var n := |s| - 1;
      CleanedSame(s[..n]);
      assert s == s[..n] + [s[n]];
    }
  }

  lemma BlockHasNoSpace(s: string)
    requires |s| == 4
    ensures DecodeBlock(s).Some? ==> NoSpace(s)
  {
  }

  lemma StandardHasNoSpace()
    ensures forall t :: |t| == 4 && Standard().decode(t).Some? ==> NoSpace(t)
  {
    forall t | |t| == 4 && Standard().decode(t).Some?
      ensures NoSpace(t)
    {
      BlockHasNoSpace(t);
    }
  }

  /** What the strict decoder accepts the lenient one accepts with the same bytes; the difference is
      exactly empty text, white space, and padding before the last block. */
  lemma StrictIsLenientAndMore(s: string)
    ensures DecodeStrict(s) ==
      if s != "" && NoSpace(s) && |s| % 4 == 0 && OnlyLastPadded(Standard(), s) then DecodeLenient(s) else None
  {
    CleanedSame(s);
    if |s| % 4 == 0 {
      StrictIsOnlyLastPadded(Standard(), s);
      StandardHasNoSpace();
      if Decoded(Standard(), s).Some? {
        AcceptedHasNoSpace(Standard(), s);
      }
    }
  }

  /** Neither decoder checks the bits that padding leaves unused: different texts give the same bytes. */
  lemma UnusedBitsAreIgnored()
    ensures DecodeBlock("QQ==") == DecodeBlock("QR==") == Some([65])
  {
    assert Value('Q') == 16 && Value('R') == 17;
    assert Unpack(Word(16, 16, 0, 0), true, true) == [65] && Unpack(Word(16, 17, 0, 0), true, true) == [65];
  }

  // ---------------------------------------------------------------------------------------------
  // Which texts are encodings
  // ---------------------------------------------------------------------------------------------

  /** The bits that padding leaves unused are zero. */
  predicate CleanBits(s: string)
  {
    |s| == 4 &&
    if Value(s[2]) == PADDING then Value(s[1]) % 16 == 0
    else Value(s[3]) == PADDING ==> Value(s[2]) % 4 == 0
  }

  lemma SextetsOf(a: int, b: int, c: int, d: int)
    requires 0 <= a < 64 && 0 <= b < 64 && 0 <= c < 64 && 0 <= d < 64
    ensures
      var n := Word(a, b, c, d);
      && 0 <= n < 0x100_0000 && n / 0x4_0000 % 64 == a && n / 0x1000 % 64 == b && n / 0x40 % 64 == c && n % 64 == d
  {
    var n := Word(a, b, c, d);
    assert n / 0x40 == a * 0x1000 + b * 0x40 + c;
    assert n / 0x1000 == a * 0x40 + b;
    assert n / 0x4_0000 == a;
  }

  /** What is left of a word once the bits of bytes that are not sent are dropped. */
  lemma PackedWord(a: int, b: int, c: int, d: int)
    requires 0 <= a < 64 && 0 <= b < 64 && 0 <= c < 64 && 0 <= d < 64
    ensures
      var n := Word(a, b, c, d);
      && 0 <= n < 0x100_0000 && Pack(n / 0x1_0000, n / 0x100 % 256, n % 256) == n
      && (d == 0 ==> Pack(n / 0x1_0000, n / 0x100 % 256, 0) == Word(a, b, c - c % 4, 0))
      && (c == 0 && d == 0 ==> Pack(n / 0x1_0000, 0, 0) == Word(a, b - b % 16, 0, 0))
  {
    var n := Word(a, b, c, d);
    assert n / 0x100 == a * 1024 + b * 16 + c / 4;
    assert n / 0x1_0000 == n / 0x100 / 256;
    if c == 0 && d == 0 {
      assert n / 0x1_0000 == a * 4 + b / 16;
    }
  }

  /** A character stands for its value and no other does. */
  lemma CharIs(c: char, v: nat)
    requires v < 64 && Value(c) >= 0
    ensures Char(v) == c <==> v == Value(c)
  {
    ValueOfAlphabet(v);
    AlphabetOfValue(c);
  }

  lemma EncodedWord(bs: seq<Byte>, a: int, b: int, c: int, d: int)
    requires 1 <= |bs| <= 3 && 0 <= a < 64 && 0 <= b < 64 && 0 <= c < 64 && 0 <= d < 64
    requires Bits(bs) == Word(a, b, c, d)
    ensures EncodeBlock(bs) == [Char(a), Char(b), if |bs| > 1 then Char(c) else '=', if |bs| > 2 then Char(d) else '=']
  {
    SextetsOf(a, b, c, d);
  }

  lemma BlockComesBackIffClean(s: string)
    requires |s| == 4 && DecodeBlock(s).Some?
    ensures
      var v := DecodeBlock(s).value;
      && 1 <= |v| <= 3 && (Padded(s) <==> |v| < 3) && (EncodeBlock(v) == s <==> CleanBits(s))
      && (!Padded(s) ==> CleanBits(s))
  {
    if Value(s[2]) == PADDING {
      TwoPads(s);
    } else if Value(s[3]) == PADDING {
      OnePad(s);
    } else {
      NoPad(s);
    }
  }

  lemma NoPad(s: string)
    requires |s| == 4 && DecodeBlock(s).Some? && !Padded(s)
    ensures |DecodeBlock(s).value| == 3 && EncodeBlock(DecodeBlock(s).value) == s
  {
    var a, b, c, d := Value(s[0]), Value(s[1]), Value(s[2]), Value(s[3]);
    PackedWord(a, b, c, d);
    EncodedWord(DecodeBlock(s).value, a, b, c, d);
    CharIs(s[0], a);
    CharIs(s[1], b);
    CharIs(s[2], c);
    CharIs(s[3], d);
  }

  lemma OnePad(s: string)
    requires |s| == 4 && DecodeBlock(s).Some? && Value(s[2]) != PADDING && Value(s[3]) == PADDING
    ensures |DecodeBlock(s).value| == 2
    ensures EncodeBlock(DecodeBlock(s).value) == s <==> Value(s[2]) % 4 == 0
  {
    var a, b, c := Value(s[0]), Value(s[1]), Value(s[2]);
    PackedWord(a, b, c, 0);
    EncodedWord(DecodeBlock(s).value, a, b, c - c % 4, 0);
    CharIs(s[0], a);
    CharIs(s[1], b);
    CharIs(s[2], c - c % 4);
    FourChars(s, EncodeBlock(DecodeBlock(s).value));
  }

  lemma TwoPads(s: string)
    requires |s| == 4 && DecodeBlock(s).Some? && Value(s[2]) == PADDING
    ensures |DecodeBlock(s).value| == 1
    ensures EncodeBlock(DecodeBlock(s).value) == s <==> Value(s[1]) % 16 == 0
  {
    var a, b := Value(s[0]), Value(s[1]);
    PackedWord(a, b, 0, 0);
    EncodedWord(DecodeBlock(s).value, a, b - b % 16, 0, 0);
    CharIs(s[0], a);
    CharIs(s[1], b - b % 16);
    FourChars(s, EncodeBlock(DecodeBlock(s).value));
  }

  lemma FourChars(s: string, t: string)
    requires |s| == |t| == 4
    ensures s == t <==> s[0] == t[0] && s[1] == t[1] && s[2] == t[2] && s[3] == t[3]
  {
  }

  lemma StandardJudges()
    ensures Judges(Standard(), CleanBits)
  {
    forall t: string | |t| == 4 && Standard().decode(t).Some?
      ensures
        var c, v := Standard(), Standard().decode(t).value;
        && 1 <= |v| <= 3 && (c.padded(t) <==> |v| < 3)
        && (c.encode(v) == t <==> CleanBits(t)) && (!c.padded(t) ==> CleanBits(t))
    {
      BlockComesBackIffClean(t);
    }
  }

  /** Different texts can have the same bytes: encoding gives a text back (less its white space) exactly
      when padding occurs in its last block only and the bits this leaves unused are zero. */
  lemma EncodingComesBackIff(s: string)
    requires DecodeLenient(s).Some?
    ensures
      var t := Cleaned(s);
      Encode(DecodeLenient(s).value) == t <==> t == "" || (OnlyLastPadded(Standard(), t) && CleanBits(t[|t| - 4..]))
  {
    StandardIsFaithful();
    StandardJudges();
    ComesBackIffClean(Standard(), CleanBits, Cleaned(s));
  }

  /** The strict decoder leaves only the unused bits. */
  lemma StrictlyComesBackIff(s: string)
    requires DecodeStrict(s).Some?
    ensures Encode(DecodeStrict(s).value) == s <==> CleanBits(s[|s| - 4..])
  {
    StrictIsLenientAndMore(s);
    CleanedSame(s);
    EncodingComesBackIff(s);
  }
}
