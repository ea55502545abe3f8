/** Strings in JSON text (section 7 of RFC 8259), as the simulator writes and reads them.  A C string is
    a string without its NUL. */
module JsonString {
  import opened Text

  const HEX := "0123456789abcdef"

  // ---------------------------------------------------------------------------------------------
  // Writing
  // ---------------------------------------------------------------------------------------------

  function EscapeChar(c: char): string
  {
    if c == '\\' then "\\\\"
    else if c == '"' then "\\\""
    else if c == '\n' then "\\n"
    else if c == '\r' then "\\r"
    else if c == '\t' then "\\t"
    else if c as int < 0x20 then ['\\', 'u', '0', '0', HEX[c as int / 16], HEX[c as int % 16]]
    else [c]
  }

  function Escape(s: string): string
  {
    if s == "" then "" else EscapeChar(s[0]) + Escape(s[1..])
  }

  method EscapeString(s: string) returns (out: string)
    ensures out == Escape(s)
  {
    out := "";
    assert s[0..] == s;
    for i := 0 to |s|
      invariant out + Escape(s[i..]) == Escape(s)
    {
      assert s[i..][0] == s[i] && s[i..][1..] == s[i + 1..];
      Regroup(out, EscapeChar(s[i]), Escape(s[i + 1..]));
      out := out + EscapeChar(s[i]);
    }
    assert s[|s|..] == "";
    Nothing(out);
  }

  // ---------------------------------------------------------------------------------------------
  // Reading
  // ---------------------------------------------------------------------------------------------

  function HexDigit(h: char): Option<int>
  {
    if '0' <= h <= '9' then Some(h as int - '0' as int)
    else if 'a' <= h <= 'f' then Some(h as int - 'a' as int + 10)
    else if 'A' <= h <= 'F' then Some(h as int - 'A' as int + 10)
    else None
  }

  /** The value after one more digit; any other character sets it back to 0. */
  function Shifted(v: int, h: char): int
  {
    if HexDigit(h).Some? then v * 16 + HexDigit(h).value else 0
  }

  function UnitValue(s: string): int
    requires |s| == 4
  {
    Shifted(Shifted(Shifted(Shifted(0, s[0]), s[1]), s[2]), s[3])
  }

  /** The character an escape stands for, and its length; None when the text ends inside it. */
  function Unescaped(s: string): (r: Option<(char, nat)>)
    requires s != "" && s[0] == '\\'
    ensures r.Some? ==> 0 < r.value.1 <= |s|
  {
    if |s| == 1 then None
    else if s[1] == 'n' then Some(('\n', 2))
    else if s[1] == 'r' then Some(('\r', 2))
    else if s[1] == 't' then Some(('\t', 2))
    else if s[1] != 'u' then Some((s[1], 2))
    else if |s| < 6 then None
    else
      var v := UnitValue(s[2..6]);
      Some((if 0 <= v <= 0x7F then v as char else '?', 6))
  }

  /** The string up to the closing quote. */
  function Body(s: string): Option<string>
    decreases |s|
  {
    if s == "" then None
    else if s[0] == '"' then Some("")
    else if s[0] == '\\' then
      (match Unescaped(s)
       case None => None
       case Some((c, n)) => Prefixed(c, Body(s[n..])))
    else Prefixed(s[0], Body(s[1..]))
  }

  function Prefixed(c: char, rest: Option<string>): Option<string>
  {
    if rest.None? then None else Some([c] + rest.value)
  }

  /** `strstr`: where `needle` occurs first. */
  function Find(s: string, needle: string): (r: Option<nat>)
    ensures r.Some? ==> r.value + |needle| <= |s|
  {
    if needle <= s then Some(0)
    else if s == "" then None
    else match Find(s[1..], needle)
      case None => None
      case Some(i) => Some(i + 1)
  }

  function SkipSpace(s: string): string
  {
    if s != "" && s[0] in " \t\n\r" then SkipSpace(s[1..]) else s
  }

  function Extract(json: string, key: string): Option<string>
  {
    match Find(json, "\"" + key + "\"")
    case None => None
    case Some(i) => Value(json[i + |key| + 2..])
  }

  /** The string after the first colon, or None when something else stands there. */
  function Value(rest: string): Option<string>
  {
    var colon := FirstIndex(rest, ':');
    if colon == |rest| then None else Quoted(SkipSpace(rest[colon + 1..]))
  }

  function Quoted(value: string): Option<string>
  {
    if value == "" || value[0] != '"' then None else Body(value[1..])
  }

  /** What was read so far, then the rest. */
  function Onto(done: string, rest: Option<string>): Option<string>
  {
    if rest.None? then None else Some(done + rest.value)
  }

  lemma OntoNothing(rest: Option<string>)
    ensures Onto("", rest) == rest
  {
    if rest.Some? {
      assert "" + rest.value == rest.value;
    }
  }

  lemma OntoPrefixed(done: string, c: char, rest: Option<string>)
    ensures Onto(done, Prefixed(c, rest)) == Onto(done + [c], rest)
  {
    if rest.Some? {
      Regroup(done, [c], rest.value);
    }
  }

  method ExtractStringField(json: string, key: string) returns (ok: bool, out: string)
    ensures Extract(json, key) == if ok then Some(out) else None
    ensures !ok ==> out == ""
  {
    var found := Find(json, "\"" + key + "\"");
    if found.None? {
      return false, "";
    }
    ok, out := ReadValue(json, found.value + |key| + 2);
  }

  method ReadValue(json: string, start: nat) returns (ok: bool, out: string)
    requires start <= |json|
    ensures Value(json[start..]) == if ok then Some(out) else None
    ensures !ok ==> out == ""
  {
    var p := start;
    while p < |json| && json[p] != ':'
      invariant start <= p <= |json|
      invariant FirstIndex(json[start..], ':') == p - start + FirstIndex(json[p..], ':')
      decreases |json| - p
    {
      assert json[p..][1..] == json[p + 1..];
      p := p + 1;
    }
    if p == |json| {
      return false, "";
    }
    assert json[start..][p - start + 1..] == json[p + 1..];
    ok, out := ReadQuoted(json, p + 1);
  }

  method ReadQuoted(json: string, start: nat) returns (ok: bool, out: string)
    requires start <= |json|
    ensures Quoted(SkipSpace(json[start..])) == if ok then Some(out) else None
    ensures !ok ==> out == ""
  {
    var p := start;
    while p < |json| && json[p] in " \t\n\r"
      invariant p <= |json|
      invariant SkipSpace(json[start..]) == SkipSpace(json[p..])
      decreases |json| - p
    {
      assert json[p..][1..] == json[p + 1..];
      p := p + 1;
    }
    if p == |json| || json[p] != '"' {
      return false, "";
    }
    assert json[p..][1..] == json[p + 1..];
    ok, out := ReadBody(json, p + 1);
  }

  method ReadBody(json: string, start: nat) returns (ok: bool, out: string)
    requires start <= |json|
    ensures Body(json[start..]) == if ok then Some(out) else None
    ensures !ok ==> out == ""
  {
    var s := "";
    var p := start;
    OntoNothing(Body(json[start..]));
    while p < |json|
      invariant p <= |json|
      invariant Body(json[start..]) == Onto(s, Body(json[p..]))
    {
      var c := json[p];
      if c == '"' {
        Nothing(s);
        return true, s;
      }
      if c == '\\' {
        var u := Unescaped(json[p..]);
        if u.None? {
          return false, "";
        }
        assert json[p..][u.value.1..] == json[p + u.value.1..];
        OntoPrefixed(s, u.value.0, Body(json[p + u.value.1..]));
        s, p := s + [u.value.0], p + u.value.1;
      } else {
        assert json[p..][1..] == json[p + 1..];
        OntoPrefixed(s, c, Body(json[p + 1..]));
        s, p := s + [c], p + 1;
      }
    }
    return false, "";
  }

  // ---------------------------------------------------------------------------------------------
  // The round trip
  // ---------------------------------------------------------------------------------------------

  lemma EscapedCharReadsBack(c: char, rest: string)
    ensures Body(EscapeChar(c) + rest) == Prefixed(c, Body(rest))
  {
    var e := EscapeChar(c);
    assert (e + rest)[|e|..] == rest;
    assert (e + rest)[0] == e[0];
    if e[0] == '\\' {
      EscapeStandsFor(c, rest);
    }
  }

  lemma EscapeStandsFor(c: char, rest: string)
    requires EscapeChar(c)[0] == '\\'
    ensures Unescaped(EscapeChar(c) + rest) == Some((c, |EscapeChar(c)|))
  {
    var e := EscapeChar(c);
    assert (e + rest)[1] == e[1];
    if |e| == 6 {
      HexOfControl(c);
      assert (e + rest)[2..6] == e[2..6];
    }
  }

  lemma HexOfControl(c: char)
    requires c as int < 0x20
    ensures UnitValue(['0', '0', HEX[c as int / 16], HEX[c as int % 16]]) == c as int
  {
    assert HexDigit(HEX[c as int / 16]) == Some(c as int / 16);
    assert HexDigit(HEX[c as int % 16]) == Some(c as int % 16);
  }

  lemma {:induction false} EscapedReadsBack(s: string, tail: string)
    ensures Body(Escape(s) + "\"" + tail) == Some(s)
  {
    var end := "\"" + tail;
    Regroup(Escape(s), "\"", tail);
    if s == "" {
      assert Escape(s) + end == end;
    } else {
      Regroup(EscapeChar(s[0]), Escape(s[1..]), end);
      EscapedCharReadsBack(s[0], Escape(s[1..]) + end);
      EscapedReadsBack(s[1..], tail);
      Regroup(Escape(s[1..]), "\"", tail);
      assert [s[0]] + s[1..] == s;
    }
  }

  /** An object whose first field is `key`. */
  function Field(key: string, s: string, tail: string): string
  {
    "{\"" + key + "\":\"" + Escape(s) + "\"" + tail
  }

  lemma ExtractAfterEscape(key: string, s: string, tail: string)
    ensures Extract(Field(key, s, tail), key) == Some(s)
  {
    var body := Escape(s) + "\"" + tail;
    assert Field(key, s, tail) == "{\"" + key + "\":\"" + body;
    EscapedReadsBack(s, tail);
    FirstFieldIsFound(key, body);
  }

  lemma FirstFieldIsFound(key: string, body: string)
    ensures Extract("{\"" + key + "\":\"" + body, key) == Body(body)
  {
    var json := "{\"" + key + "\":\"" + body;
    var needle := "\"" + key + "\"";
    var rest := ":\"" + body;
    assert json[1..] == needle + rest;
    assert needle[0] != json[0];
    assert Find(json[1..], needle) == Some(0);
    assert json[1 + |key| + 2..] == rest;
    assert rest[1..] == "\"" + body && ("\"" + body)[1..] == body;
  }

  // ---------------------------------------------------------------------------------------------
  // The standard: the text between two quotes, read as code units
  // ---------------------------------------------------------------------------------------------

  /** What the characters after a backslash other than `u` stand for. */
  function TwoCharacterEscape(c: char): Option<int>
  {
    if c == '"' || c == '\\' || c == '/' then Some(c as int)
    else if c == 'b' then Some(8)
    else if c == 'f' then Some(12)
    else if c == 'n' then Some(10)
    else if c == 'r' then Some(13)
    else if c == 't' then Some(9)
    else None
  }

  predicate IsHex(s: string)
  {
    forall i :: 0 <= i < |s| ==> HexDigit(s[i]).Some?
  }

  /** The first code unit of `s` and how many characters denote it. */
  function Unit(s: string): (r: Option<(int, nat)>)
    requires s != ""
    ensures r.Some? ==> 0 < r.value.1 <= |s|
  {
    if s[0] == '"' || s[0] as int < 0x20 then None
    else if s[0] != '\\' then Some((s[0] as int, 1))
    else if |s| == 1 then None
    else if s[1] == 'u' then
      if |s| < 6 || !IsHex(s[2..6]) then None else Some((UnitValue(s[2..6]), 6))
    else
      match TwoCharacterEscape(s[1])
      case None => None
      case Some(v) => Some((v, 2))
  }

  function Units(s: string): Option<seq<int>>
    decreases |s|
  {
    if s == "" then Some([])
    else match Unit(s)
      case None => None
      case Some((v, n)) => if Units(s[n..]).None? then None else Some([v] + Units(s[n..]).value)
  }

  function Codes(s: string): seq<int>
  {
    if s == "" then [] else [s[0] as int] + Codes(s[1..])
  }

  /** What is escaped is a JSON string with the right meaning. */
  lemma {:induction false} EscapedIsStandard(s: string)
    ensures Units(Escape(s)) == Some(Codes(s))
  {
    if s != "" {
      var e, rest := EscapeChar(s[0]), Escape(s[1..]);
      EscapedCharIsAUnit(s[0], rest);
      assert (e + rest)[|e|..] == rest;
      EscapedIsStandard(s[1..]);
    }
  }

  lemma EscapedCharIsAUnit(c: char, rest: string)
    ensures Unit(EscapeChar(c) + rest) == Some((c as int, |EscapeChar(c)|))
  {
    var e := EscapeChar(c);
    if |e| == 6 {
      HexOfControl(c);
      assert (e + rest)[2..6] == e[2..6];
      assert HexDigit(HEX[c as int / 16]) == Some(c as int / 16);
      assert HexDigit(HEX[c as int % 16]) == Some(c as int % 16);
    }
  }

  /** No standard text holds a control character. */
  lemma {:induction false} StandardHasNoControls(s: string)
    requires Units(s).Some?
    ensures forall i :: 0 <= i < |s| ==> s[i] as int >= 0x20
    decreases |s|
  {
    if s != "" {
      var n := Unit(s).value.1;
      StandardHasNoControls(s[n..]);
      forall i | 0 <= i < |s|
        ensures s[i] as int >= 0x20
      {
        if i >= n {
          assert s[i] == s[n..][i - n];
        } else if i >= 2 {
          assert s[i] == s[2..6][i - 2];
        }
      }
    }
  }

  /** Escapes the reader decodes as the standard does. */
  predicate Ascii(s: string)
    decreases |s|
  {
    s == "" || Unit(s).None? || (AsciiFirst(s) && Ascii(s[Unit(s).value.1..]))
  }

  predicate AsciiFirst(s: string)
    requires s != "" && Unit(s).Some?
  {
    s[0] == '\\' ==> s[1] !in "bf" && (s[1] == 'u' ==> Unit(s).value.0 <= 0x7F)
  }

  /** The reader takes every standard text, and gives it its meaning exactly when no escape is `\b`,
      `\f` or a code unit past ASCII. */
  lemma {:induction false} ReaderAgreesWithStandard(s: string, tail: string)
    requires Units(s).Some?
    ensures Body(s + "\"" + tail).Some?
    ensures Codes(Body(s + "\"" + tail).value) == Units(s).value <==> Ascii(s)
    decreases |s|
  {
    var end := "\"" + tail;
    Regroup(s, "\"", tail);
    if s == "" {
      assert s + end == end;
    } else {
      var n := Unit(s).value.1;
      var rest := s[n..];
      Regroup(rest, "\"", tail);
      ReaderAgreesWithStandard(rest, tail);
      var c := FirstReads(s, end);
      var read := Body(rest + end).value;
      assert ([c] + read)[1..] == read;
      assert Codes([c] + read) == [c as int] + Codes(read);
      assert (Codes([c] + read) == Units(s).value) <==>
        (c as int == Unit(s).value.0 && Codes(read) == Units(rest).value) by {
        Heads(c as int, Codes(read), Unit(s).value.0, Units(rest).value);
      }
    }
  }

  lemma Heads(a: int, s: seq<int>, b: int, t: seq<int>)
    ensures [a] + s == [b] + t <==> a == b && s == t
  {
    assert ([a] + s)[0] == a && ([a] + s)[1..] == s;
    assert ([b] + t)[0] == b && ([b] + t)[1..] == t;
  }

  /** One unit: the character read for it. */
  lemma FirstReads(s: string, end: string) returns (c: char)
    requires s != "" && Unit(s).Some?
    ensures Body(s + end) == Prefixed(c, Body(s[Unit(s).value.1..] + end))
    ensures c as int == Unit(s).value.0 <==> AsciiFirst(s)
  {
    var (v, n) := Unit(s).value;
    var t := s + end;
    assert t[n..] == s[n..] + end;
    if s[0] != '\\' {
      c := s[0];
    } else {
      if s[1] == 'u' {
        assert t[2..6] == s[2..6];
        HexIsNatural(s[2..6]);
      }
      c := Unescaped(t).value.0;
    }
  }

  lemma HexIsNatural(s: string)
    requires |s| == 4 && IsHex(s)
    ensures UnitValue(s) >= 0
  {
    assert HexDigit(s[0]).value >= 0 && HexDigit(s[1]).value >= 0;
    assert HexDigit(s[2]).value >= 0 && HexDigit(s[3]).value >= 0;
  }

  // ---------------------------------------------------------------------------------------------
  // Where the reader leaves the text
  // ---------------------------------------------------------------------------------------------

  /** The reader of the code goes on behind the terminator: it meets a `\u` with fewer than four characters
      after it.  `Body` gives no string then. */
  predicate StepsPast(s: string)
    decreases |s|
  {
    s != "" && s[0] != '"' &&
    if s[0] != '\\' then StepsPast(s[1..])
    else if Unescaped(s).None? then |s| > 1
    else StepsPast(s[Unescaped(s).value.1..])
  }

  /** The reader gets through all of `p` without finishing. */
  predicate Passes(p: string)
    decreases |p|
  {
    p == "" ||
    (p[0] != '"' &&
     if p[0] != '\\' then Passes(p[1..]) else Unescaped(p).Some? && Passes(p[Unescaped(p).value.1..]))
  }

  predicate CutEscapeAt(s: string, i: nat)
  {
    i + 2 <= |s| < i + 6 && s[i] == '\\' && s[i + 1] == 'u' && Passes(s[..i])
  }

  /** How far one step gets, when there is one. */
  function StepLength(s: string): (n: nat)
    requires s != ""
    ensures n <= |s|
  {
    if s[0] == '"' then 0
    else if s[0] != '\\' then 1
    else if Unescaped(s).None? then 0 else Unescaped(s).value.1
  }

  lemma PassesStep(s: string, i: nat)
    requires i <= |s| && s != "" && StepLength(s) > 0 && i >= StepLength(s)
    ensures Passes(s[..i]) <==> Passes(s[StepLength(s)..][..i - StepLength(s)])
  {
    var n := StepLength(s);
    assert s[..i][n..] == s[n..][..i - n];
    if n == 6 {
      assert s[..i][2..6] == s[2..6];
    }
  }

  lemma {:induction false} CutEscapeStepsPast(s: string, i: nat)
    requires CutEscapeAt(s, i)
    ensures StepsPast(s) && Body(s) == None
    decreases |s|
  {
    if i > 0 {
      var n := StepOfPrefix(s, i);
      PassesStep(s, i);
      CutEscapeStepsPast(s[n..], i - n);
    }
  }

  /** The first step of a prefix that the reader gets through is the first step of the text. */
  lemma StepOfPrefix(s: string, i: nat) returns (n: nat)
    requires 0 < i <= |s| && Passes(s[..i])
    ensures n == StepLength(s) && 0 < n <= i
  {
    n := StepLength(s);
    if s[0] == '\\' && i >= 6 && s[1] == 'u' {
      assert s[..i][2..6] == s[2..6];
    }
  }

  lemma {:induction false} StepsPastHasCutEscape(s: string) returns (i: nat)
    requires StepsPast(s)
    ensures CutEscapeAt(s, i)
    decreases |s|
  {
    var n := StepLength(s);
    if n == 0 {
      i := 0;
    } else {
      i := StepsPastHasCutEscape(s[n..]);
      PassesStep(s, n + i);
      i := n + i;
    }
  }

  /** Exactly the texts that end inside a `\u` escape, which the reader reaches, make it step past the end. */
  lemma StepsPastIff(s: string)
    ensures StepsPast(s) <==> exists i: nat :: i <= |s| && CutEscapeAt(s, i)
    ensures StepsPast(s) ==> Body(s) == None
  {
    if StepsPast(s) {
      var i := StepsPastHasCutEscape(s);
      CutEscapeStepsPast(s, i);
    }
    if i: nat :| i <= |s| && CutEscapeAt(s, i) {
      CutEscapeStepsPast(s, i);
    }
  }
}
