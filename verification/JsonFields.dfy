/** Which string the simulator's reader takes for a key, anywhere in a text. */
module JsonFields {
  import opened Text
  import opened JsonString

  lemma OccursInRest(s: string, needle: string, i: nat)
    requires s != "" && !(needle <= s)
    ensures OccursAt(s, needle, i) <==> i > 0 && OccursAt(s[1..], needle, i - 1)
  {
    assert s[0..] == s;
    if 0 < i <= |s| {
      assert s[1..][i - 1..] == s[i..];
    }
  }

  lemma {:induction false} FoundOccurs(s: string, needle: string)
    requires Find(s, needle).Some?
    ensures OccursAt(s, needle, Find(s, needle).value)
  {
    assert s[0..] == s;
    if !(needle <= s) {
      FoundOccurs(s[1..], needle);
      OccursInRest(s, needle, Find(s, needle).value);
    }
  }

  lemma {:induction false} FoundAtMost(s: string, needle: string, i: nat)
    requires OccursAt(s, needle, i)
    ensures Find(s, needle).Some? && Find(s, needle).value <= i
    decreases |s|
  {
    if s == "" {
      assert s[i..] == s;
    } else if !(needle <= s) {
      OccursInRest(s, needle, i);
      FoundAtMost(s[1..], needle, i - 1);
    }
  }

  predicate Space(s: string)
  {
    forall i :: 0 <= i < |s| ==> s[i] as int in {32, 9, 10, 13}
  }

  lemma {:induction false} SpaceSkipped(space: string, rest: string)
    requires Space(space) && rest != "" && rest[0] == '"'
    ensures SkipSpace(space + rest) == rest
  {
    if space == "" {
      assert space + rest == rest;
    } else {
      assert space[0] in " \t\n\r" by {
        assert " \t\n\r"[0] == ' ' && " \t\n\r"[1] == '\t' && " \t\n\r"[2] == '\n' && " \t\n\r"[3] == '\r';
      }
      assert (space + rest)[1..] == space[1..] + rest;
      SpaceSkipped(space[1..], rest);
    }
  }

  /** What follows the quoted key: anything without a colon, a colon, white space, and the string. */
  function After(gap: string, space: string, s: string, tail: string): string
  {
    gap + (":" + (space + ("\"" + (Escape(s) + "\"" + tail))))
  }

  lemma ValueIsFound(gap: string, space: string, s: string, tail: string)
    requires ':' !in gap && Space(space)
    ensures Value(After(gap, space, s, tail)) == Some(s)
  {
    var quoted := "\"" + (Escape(s) + "\"" + tail);
    var rest := After(gap, space, s, tail);
    FirstIndexSkips(gap, ':', space + quoted);
    assert rest[|gap| + 1..] == space + quoted;
    SpaceSkipped(space, quoted);
    assert quoted[1..] == Escape(s) + "\"" + tail;
    EscapedReadsBack(s, tail);
  }

  /** The reader finds the first place where the quoted key stands. */
  lemma KeyIsFirst(json: string, key: string, i: nat)
    ensures Find(json, "\"" + key + "\"") == Some(i) <==>
      OccursAt(json, "\"" + key + "\"", i) && forall j: nat :: j < i ==> !OccursAt(json, "\"" + key + "\"", j)
  {
    var needle := "\"" + key + "\"";
    if Find(json, needle).Some? {
      FoundOccurs(json, needle);
    }
    forall j: nat | OccursAt(json, needle, j)
      ensures Find(json, needle).Some? && Find(json, needle).value <= j
    {
      FoundAtMost(json, needle, j);
    }
  }

  /** The first place where the quoted key stands counts, wherever that is. */
  lemma ExtractAnywhere(before: string, key: string, gap: string, space: string, s: string, tail: string)
    requires ':' !in gap && Space(space)
    requires
      var needle := "\"" + key + "\"";
      forall i: nat :: i < |before| ==> !OccursAt(before + (needle + After(gap, space, s, tail)), needle, i)
    ensures Extract(before + ("\"" + key + "\"" + After(gap, space, s, tail)), key) == Some(s)
  {
    var needle, rest := "\"" + key + "\"", After(gap, space, s, tail);
    var json := before + (needle + rest);
    assert json[|before|..] == needle + rest;
    FoundAtMost(json, needle, |before|);
    FoundOccurs(json, needle);
    assert json[|before| + |needle|..] == rest;
    ValueIsFound(gap, space, s, tail);
    Regroup(before, needle, rest);
  }

  /** Without the quoted key there is nothing to extract. */
  lemma NoKeyNoString(json: string, key: string)
    requires !Contains(json, "\"" + key + "\"")
    ensures Extract(json, key) == None
  {
    if Find(json, "\"" + key + "\"").Some? {
      FoundOccurs(json, "\"" + key + "\"");
    }
  }

  /** What follows the colon is extracted only when it is a string. */
  lemma OnlyStrings(gap: string, space: string, value: string)
    requires ':' !in gap && Space(space)
    requires value == "" || (value[0] as int !in {32, 9, 10, 13} && value[0] != '"')
    ensures Value(gap + (":" + (space + value))) == None
  {
    var rest := gap + (":" + (space + value));
    FirstIndexSkips(gap, ':', space + value);
    assert rest[|gap| + 1..] == space + value;
    SkipsTo(space, value);
  }

  lemma {:induction false} SkipsTo(space: string, rest: string)
    requires Space(space) && (rest == "" || rest[0] as int !in {32, 9, 10, 13})
    ensures SkipSpace(space + rest) == rest
  {
    SpaceByCode();
    if space == "" {
      Nothing(rest);
    } else {
      assert (space + rest)[1..] == space[1..] + rest;
      SkipsTo(space[1..], rest);
    }
  }

  lemma SpaceByCode()
    ensures forall c: char :: c in " \t\n\r" <==> c as int in {32, 9, 10, 13}
  {
    assert " \t\n\r" == [' ', '\t', '\n', '\r'];
  }

  lemma HexInCharacters(d: nat)
    requires d < 16
    ensures HexDigit("0123456789abcdef"[d]) == Some(d) && HexDigit("0123456789ABCDEF"[d]) == Some(d)
  {
  }

  /** Four hexadecimal digits are a number, the first one counting most. */
  lemma UnitInNumbers(a: nat, b: nat, c: nat, d: nat, digits: string)
    requires a < 16 && b < 16 && c < 16 && d < 16 && |digits| == 4
    requires HexDigit(digits[0]) == Some(a) && HexDigit(digits[1]) == Some(b)
    requires HexDigit(digits[2]) == Some(c) && HexDigit(digits[3]) == Some(d)
    ensures UnitValue(digits) == 4096 * a + 256 * b + 16 * c + d
  {
  }

  /** A unicode escape gives the character when that is ASCII, and otherwise a question mark. */
  lemma UnicodeInCharacters(digits: string, rest: string)
    requires |digits| == 4
    ensures Body("\\u" + (digits + rest)) ==
      Prefixed(if 0 <= UnitValue(digits) < 128 then UnitValue(digits) as char else '?', Body(rest))
  {
    var s := "\\u" + (digits + rest);
    assert s[0] == '\\' && s[1] == 'u' && s[2..6] == digits && s[6..] == rest;
  }
}
