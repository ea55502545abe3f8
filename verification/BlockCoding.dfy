/** Codes that turn up to three bytes into a block of four characters, apart from what a block looks like. */
module BlockCoding {
  import opened Text

  type Byte = n: int | 0 <= n < 256

  /** `encode` is used on one to three bytes, `decode` and `padded` on four characters. */
  datatype Code = Code(encode: seq<Byte> -> string, decode: string -> Option<seq<Byte>>, padded: string -> bool)

  /** Decoding inverts encoding, and exactly the short blocks are padded. */
  ghost predicate Faithful(c: Code)
  {
    forall bs: seq<Byte> :: 1 <= |bs| <= 3 ==>
      |c.encode(bs)| == 4 && c.decode(c.encode(bs)) == Some(bs) && (c.padded(c.encode(bs)) <==> |bs| < 3)
  }

  // ---------------------------------------------------------------------------------------------
  // Encoding
  // ---------------------------------------------------------------------------------------------

  function First(bs: seq<Byte>): (b: seq<Byte>)
    requires bs != []
    ensures 1 <= |b| <= 3
  {
    if |bs| < 3 then bs else bs[..3]
  }

  function Rest(bs: seq<Byte>): (r: seq<Byte>)
    requires bs != []
    ensures |r| < |bs|
  {
    if |bs| < 3 then [] else bs[3..]
  }

  function Encoded(c: Code, bs: seq<Byte>): string
    decreases |bs|
  {
    if bs == [] then "" else c.encode(First(bs)) + Encoded(c, Rest(bs))
  }

  lemma EncodeStep(c: Code, bs: seq<Byte>, i: nat, out: string)
    requires i + 3 <= |bs|
    ensures out + Encoded(c, bs[i..]) == (out + c.encode([bs[i], bs[i + 1], bs[i + 2]])) + Encoded(c, bs[i + 3..])
  {
    assert bs[i..][..3] == [bs[i], bs[i + 1], bs[i + 2]] && bs[i..][3..] == bs[i + 3..];
    Regroup(out, c.encode([bs[i], bs[i + 1], bs[i + 2]]), Encoded(c, bs[i + 3..]));
  }

  lemma LastBlock(c: Code, bs: seq<Byte>, i: nat, out: string)
    requires i <= |bs| < i + 3
    ensures out + Encoded(c, bs[i..]) == out + if i == |bs| then "" else c.encode(bs[i..])
  {
    if i < |bs| {
      Nothing(c.encode(bs[i..]));
    }
  }

  lemma {:induction false} EncodedLength(c: Code, bs: seq<Byte>)
    requires Faithful(c)
    ensures |Encoded(c, bs)| == (|bs| + 2) / 3 * 4
    decreases |bs|
  {
    if bs != [] {
      EncodedLength(c, Rest(bs));
    }
  }

  // ---------------------------------------------------------------------------------------------
  // Decoding
  // ---------------------------------------------------------------------------------------------

  function Prefixed(block: Option<seq<Byte>>, rest: Option<seq<Byte>>): Option<seq<Byte>>
  {
    if block.None? || rest.None? then None else Some(block.value + rest.value)
  }

  function Decoded(c: Code, s: string): Option<seq<Byte>>
    requires |s| % 4 == 0
    decreases |s|
  {
    if s == "" then Some([]) else Prefixed(c.decode(s[..4]), Decoded(c, s[4..]))
  }

  /** The same with padding in the last block only. */
  function StrictlyDecoded(c: Code, s: string): Option<seq<Byte>>
    requires |s| % 4 == 0
    decreases |s|
  {
    if s == "" then Some([])
    else if |s| > 4 && c.padded(s[..4]) then None
    else Prefixed(c.decode(s[..4]), StrictlyDecoded(c, s[4..]))
  }

  lemma PrefixedTwice(out: seq<Byte>, block: Option<seq<Byte>>, rest: Option<seq<Byte>>)
    ensures Prefixed(Some(out), Prefixed(block, rest)) ==
      if block.None? then None else Prefixed(Some(out + block.value), rest)
  {
    if block.Some? && rest.Some? {
      Regroup(out, block.value, rest.value);
    }
  }

  lemma DecodeStep(c: Code, s: string, i: nat, out: seq<Byte>)
    requires |s| % 4 == 0 && i % 4 == 0 && i + 4 <= |s|
    ensures
      var block := c.decode(s[i..i + 4]);
      Prefixed(Some(out), Decoded(c, s[i..])) ==
        if block.None? then None else Prefixed(Some(out + block.value), Decoded(c, s[i + 4..]))
  {
    assert s[i..][..4] == s[i..i + 4] && s[i..][4..] == s[i + 4..];
    PrefixedTwice(out, c.decode(s[i..i + 4]), Decoded(c, s[i + 4..]));
  }

  lemma StrictStep(c: Code, s: string, i: nat, out: seq<Byte>)
    requires |s| % 4 == 0 && i % 4 == 0 && i + 4 <= |s|
    ensures
      var block := c.decode(s[i..i + 4]);
      Prefixed(Some(out), StrictlyDecoded(c, s[i..])) ==
        if block.None? || (i + 4 != |s| && c.padded(s[i..i + 4])) then None
        else Prefixed(Some(out + block.value), StrictlyDecoded(c, s[i + 4..]))
  {
    assert s[i..][..4] == s[i..i + 4] && s[i..][4..] == s[i + 4..];
    PrefixedTwice(out, c.decode(s[i..i + 4]), StrictlyDecoded(c, s[i + 4..]));
  }

  lemma StartOfBlocks(c: Code, s: string)
    requires |s| % 4 == 0
    ensures Decoded(c, s) == Prefixed(Some([]), Decoded(c, s[0..]))
    ensures StrictlyDecoded(c, s) == Prefixed(Some([]), StrictlyDecoded(c, s[0..]))
  {
    assert s[0..] == s;
    if Decoded(c, s).Some? { Nothing(Decoded(c, s).value); }
    if StrictlyDecoded(c, s).Some? { Nothing(StrictlyDecoded(c, s).value); }
  }

  lemma EndOfBlocks(c: Code, s: string, out: seq<Byte>)
    requires |s| % 4 == 0
    ensures Prefixed(Some(out), Decoded(c, s[|s|..])) == Some(out)
    ensures Prefixed(Some(out), StrictlyDecoded(c, s[|s|..])) == Some(out)
  {
    assert s[|s|..] == "";
    Nothing(out);
  }

  // ---------------------------------------------------------------------------------------------
  // Round trips
  // ---------------------------------------------------------------------------------------------

  lemma FirstAndRest(bs: seq<Byte>)
    requires bs != []
    ensures First(bs) + Rest(bs) == bs
  {
  }

  predicate OnlyLastPadded(c: Code, s: string)
    requires |s| % 4 == 0
    decreases |s|
  {
    |s| <= 4 || (!c.padded(s[..4]) && OnlyLastPadded(c, s[4..]))
  }

  lemma {:induction false} StrictIsOnlyLastPadded(c: Code, s: string)
    requires |s| % 4 == 0
    ensures StrictlyDecoded(c, s) == if OnlyLastPadded(c, s) then Decoded(c, s) else None
    decreases |s|
  {
    if s != "" {
      StrictIsOnlyLastPadded(c, s[4..]);
    }
  }

  lemma {:induction false} WholeBlocks(c: Code, bs: seq<Byte>)
    requires Faithful(c)
    ensures |Encoded(c, bs)| % 4 == 0
    decreases |bs|
  {
    if bs != [] {
      WholeBlocks(c, Rest(bs));
      FaithfulOn(c, First(bs));
      MoreBlocks(c, bs);
    }
  }

  lemma {:induction false} EncodedDecodes(c: Code, bs: seq<Byte>)
    requires Faithful(c)
    ensures |Encoded(c, bs)| % 4 == 0 && Decoded(c, Encoded(c, bs)) == Some(bs)
    decreases |bs|
  {
    WholeBlocks(c, bs);
    if bs != [] {
      EncodedDecodes(c, Rest(bs));
      FaithfulOn(c, First(bs));
      FirstBlock(c, bs);
      FirstAndRest(bs);
    }
  }

  lemma {:induction false} EncodedIsLastPadded(c: Code, bs: seq<Byte>)
    requires Faithful(c)
    ensures |Encoded(c, bs)| % 4 == 0 && OnlyLastPadded(c, Encoded(c, bs))
    decreases |bs|
  {
    WholeBlocks(c, bs);
    if bs != [] {
      EncodedIsLastPadded(c, Rest(bs));
      FaithfulOn(c, First(bs));
      FirstBlock(c, bs);
      MoreBlocks(c, bs);
    }
  }

  lemma BlocksComeBack(c: Code, bs: seq<Byte>)
    requires Faithful(c)
    ensures |Encoded(c, bs)| % 4 == 0
    ensures Decoded(c, Encoded(c, bs)) == Some(bs) && StrictlyDecoded(c, Encoded(c, bs)) == Some(bs)
  {
    EncodedDecodes(c, bs);
    EncodedIsLastPadded(c, bs);
    StrictIsOnlyLastPadded(c, Encoded(c, bs));
  }

  lemma MoreBlocks(c: Code, bs: seq<Byte>)
    requires bs != [] && |c.encode(First(bs))| == 4
    ensures |Encoded(c, bs)| == 4 + |Encoded(c, Rest(bs))|
    ensures |Encoded(c, bs)| > 4 ==> |First(bs)| == 3
  {
    if |bs| < 3 {
      assert Rest(bs) == [];
    }
  }

  lemma FaithfulOn(c: Code, b: seq<Byte>)
    requires Faithful(c) && 1 <= |b| <= 3
    ensures |c.encode(b)| == 4 && c.decode(c.encode(b)) == Some(b) && (c.padded(c.encode(b)) <==> |b| < 3)
  {
  }

  lemma FirstBlock(c: Code, bs: seq<Byte>)
    requires bs != [] && |c.encode(First(bs))| == 4
    ensures Encoded(c, bs)[..4] == c.encode(First(bs)) && Encoded(c, bs)[4..] == Encoded(c, Rest(bs))
  {
    var block, rest := c.encode(First(bs)), Encoded(c, Rest(bs));
    assert (block + rest)[..4] == block && (block + rest)[4..] == rest;
  }

  predicate NoSpace(s: string) { forall i :: 0 <= i < |s| ==> !IsSpace(s[i]) }

  lemma NoSpaceAppend(a: string, b: string)
    requires NoSpace(a) && NoSpace(b)
    ensures NoSpace(a + b)
  {
  }

  lemma {:induction false} AcceptedHasNoSpace(c: Code, s: string)
    requires forall t :: |t| == 4 && c.decode(t).Some? ==> NoSpace(t)
    requires |s| % 4 == 0 && Decoded(c, s).Some?
    ensures NoSpace(s)
    decreases |s|
  {
    if s != "" {
      AcceptedHasNoSpace(c, s[4..]);
      NoSpaceAppend(s[..4], s[4..]);
      assert s == s[..4] + s[4..];
    }
  }

  // ---------------------------------------------------------------------------------------------
  // Which texts come back
  // ---------------------------------------------------------------------------------------------

  /** `clean` says of a block that is accepted whether it is the encoding of its bytes; without padding
      it always is. */
  ghost predicate Judges(c: Code, clean: string -> bool)
  {
    forall t :: |t| == 4 && c.decode(t).Some? ==>
      var v := c.decode(t).value;
      && 1 <= |v| <= 3 && (c.padded(t) <==> |v| < 3)
      && (c.encode(v) == t <==> clean(t)) && (!c.padded(t) ==> clean(t))
  }

  lemma Judged(c: Code, clean: string -> bool, t: string)
    requires Judges(c, clean) && |t| == 4 && c.decode(t).Some?
    ensures
      var v := c.decode(t).value;
      && 1 <= |v| <= 3 && (c.padded(t) <==> |v| < 3)
      && (c.encode(v) == t <==> clean(t)) && (!c.padded(t) ==> clean(t))
  {
  }

  /** Encoding what a text decodes to gives the text back exactly when padding occurs in its last block
      only, and that block is clean. */
  lemma {:induction false} ComesBackIffClean(c: Code, clean: string -> bool, s: string)
    requires Faithful(c) && Judges(c, clean) && |s| % 4 == 0 && Decoded(c, s).Some?
    ensures Encoded(c, Decoded(c, s).value) == s <==> s == "" || (OnlyLastPadded(c, s) && clean(s[|s| - 4..]))
    decreases |s|
  {
    if s != "" {
      var t, r := s[..4], s[4..];
      Judged(c, clean, t);
      if r == "" {
        assert t == s;
        OneBlock(c, s);
      } else if c.padded(t) {
        PaddedDoesNotComeBack(c, clean, s);
      } else {
        ComesBackIffClean(c, clean, r);
        FullBlock(c, s);
      }
    }
  }

  lemma OneBlock(c: Code, s: string)
    requires |s| == 4 && c.decode(s).Some? && 1 <= |c.decode(s).value| <= 3
    ensures Decoded(c, s) == c.decode(s) && Encoded(c, c.decode(s).value) == c.encode(c.decode(s).value)
    ensures s[..4] == s == s[|s| - 4..]
  {
    assert s[..4] == s && s[4..] == "";
    Nothing(c.decode(s).value);
    EncodedShort(c, c.decode(s).value);
  }

  lemma FullBlock(c: Code, s: string)
    requires |s| % 4 == 0 && |s| > 4 && Decoded(c, s).Some?
    requires |c.decode(s[..4]).value| == 3 && c.encode(c.decode(s[..4]).value) == s[..4]
    ensures s[|s| - 4..] == s[4..][|s[4..]| - 4..]
    ensures Encoded(c, Decoded(c, s).value) == s <==> Encoded(c, Decoded(c, s[4..]).value) == s[4..]
  {
    var v, w := c.decode(s[..4]).value, Decoded(c, s[4..]).value;
    assert First(v + w) == v && Rest(v + w) == w;
    assert s == s[..4] + s[4..];
    SameTail(s[..4], Encoded(c, w), s[4..]);
  }

  lemma EncodedShort(c: Code, v: seq<Byte>)
    requires 1 <= |v| <= 3
    ensures Encoded(c, v) == c.encode(v)
  {
    assert First(v) == v && Rest(v) == [];
    Nothing(c.encode(v));
  }

  lemma SameTail(t: string, a: string, b: string)
    ensures t + a == t + b <==> a == b
  {
    assert (t + a)[|t|..] == a && (t + b)[|t|..] == b;
  }

  /** Padding before the last block is never what encoding gives. */
  lemma PaddedDoesNotComeBack(c: Code, clean: string -> bool, s: string)
    requires Faithful(c) && Judges(c, clean) && |s| % 4 == 0 && |s| > 4
    requires Decoded(c, s).Some? && c.padded(s[..4])
    ensures Encoded(c, Decoded(c, s).value) != s
  {
    var bs := Decoded(c, s).value;
    Judged(c, clean, s[..4]);
    Judged(c, clean, s[4..][..4]);
    EncodedLength(c, bs);
    if |bs| >= 3 {
      assert |First(bs)| == 3;
      assert Encoded(c, bs)[..4] == c.encode(First(bs));
    }
  }
}
