/** The JSON-free session format: a header line, then one escaped line per message. */
module SessionCodec {
  import opened Text
  import opened Messages

  function RoleName(role: Role): string
  {
    match role
    case System => "system"
    case User => "user"
    case Assistant => "assistant"
    case Tool => "tool"
  }

  function RoleFromName(name: string): Option<Role>
  {
    if name == "system" then Some(System)
    else if name == "user" then Some(User)
    else if name == "assistant" then Some(Assistant)
    else if name == "tool" then Some(Tool)
    else None
  }

  // ---------------------------------------------------------------------------------------------
  // Escaping
  // ---------------------------------------------------------------------------------------------

  const HEX := "0123456789ABCDEF"

  function HexValue(c: char): Option<nat>
  {
    if '0' <= c <= '9' then Some(c as int - '0' as int)
    else if 'a' <= c <= 'f' then Some(10 + (c as int - 'a' as int))
    else if 'A' <= c <= 'F' then Some(10 + (c as int - 'A' as int))
    else None
  }

  predicate Control(c: char)
  {
    c as int < 0x20 || c as int == 0x7F
  }

  function EscapeChar(c: char): string
  {
    if c == '\\' then "\\\\"
    else if c == '\n' then "\\n"
    else if c == '\r' then "\\r"
    else if c == '\t' then "\\t"
    else if Control(c) then ['\\', 'x', HEX[c as int / 16], HEX[c as int % 16]]
    else [c]
  }

  function Escape(s: string): string
  {
    if s == "" then "" else EscapeChar(s[0]) + Escape(s[1..])
  }

  method EscapeContent(s: string) returns (out: string)
    ensures out == Escape(s)
  {
    out := "";
    for i := 0 to |s|
      invariant out + Escape(s[i..]) == Escape(s)
    {
      assert s[i..][1..] == s[i + 1..];
      Regroup(out, EscapeChar(s[i]), Escape(s[i + 1..]));
      out := out + EscapeChar(s[i]);
    }
    assert s[|s|..] == "";
  }

  /** The character an escape starts with, and how many characters it takes. */
  function UnescapeFirst(s: string): (r: Option<(char, nat)>)
    requires s != ""
    ensures r.Some? ==> 0 < r.value.1 <= |s|
  {
    if s[0] != '\\' then Some((s[0], 1))
    else if |s| < 2 then None
    else if s[1] == '\\' then Some(('\\', 2))
    else if s[1] == 'n' then Some(('\n', 2))
    else if s[1] == 'r' then Some(('\r', 2))
    else if s[1] == 't' then Some(('\t', 2))
    else if s[1] == 'x' && |s| >= 4 && HexValue(s[2]).Some? && HexValue(s[3]).Some? then
      Some(((HexValue(s[2]).value * 16 + HexValue(s[3]).value) as char, 4))
    else None
  }

  function Unescape(s: string): Option<string>
  {
    if s == "" then Some("")
    else
      match UnescapeFirst(s)
      case None => None
      case Some((c, n)) =>
        match Unescape(s[n..])
        case None => None
        case Some(rest) => Some([c] + rest)
  }

  method UnescapeContent(s: string) returns (out: Option<string>)
    ensures out == Unescape(s)
  {
    var text, i := "", 0;
    assert s[0..] == s && forall rest: string :: "" + rest == rest;
    while i < |s|
      invariant 0 <= i <= |s|
      invariant Unescape(s) == match Unescape(s[i..]) { case None => None case Some(rest) => Some(text + rest) }
    {
      match UnescapeFirst(s[i..]) {
        case None =>
          return None;
        case Some((c, n)) =>
          assert s[i..][n..] == s[i + n..];
          assert forall rest: string :: text + ([c] + rest) == (text + [c]) + rest;
          text, i := text + [c], i + n;
      }
    }
    assert s[i..] == "" && text + "" == text;
    return Some(text);
  }

  lemma UnescapeEscapedChar(c: char, rest: string)
    ensures UnescapeFirst(EscapeChar(c) + rest) == Some((c, |EscapeChar(c)|))
  {
    if Control(c) {
      var hi, lo := c as int / 16, c as int % 16;
      assert HexValue(HEX[hi]) == Some(hi) && HexValue(HEX[lo]) == Some(lo);
      assert (hi * 16 + lo) as char == c;
    }
  }

  /** Unescaping undoes escaping, on every content. */
  lemma {:induction false} UnescapeEscape(s: string)
    ensures Unescape(Escape(s)) == Some(s)
  {
    if s != "" {
      UnescapeEscapedChar(s[0], Escape(s[1..]));
      assert Escape(s)[|EscapeChar(s[0])|..] == Escape(s[1..]);
      UnescapeEscape(s[1..]);
      assert [s[0]] + s[1..] == s;
    }
  }

  // ---------------------------------------------------------------------------------------------
  // Sessions
  // ---------------------------------------------------------------------------------------------

  const HEADER := "AGENT_SESSION\t1"

  function MessageLine(m: Message): string
  {
    "M\t" + RoleName(m.role) + "\t" + Escape(m.content)
  }

  function MessageLines(s: Session): seq<string>
  {
    seq(|s|, i requires 0 <= i < |s| => MessageLine(s[i]))
  }

  function Encode(s: Session): string
  {
    HEADER + "\n" + Lines(MessageLines(s))
  }

  method EncodeSession(s: Session) returns (out: string)
    ensures out == Encode(s)
  {
    out := HEADER + "\n";
    assert MessageLines([]) == [] && out + "" == out;
    for i := 0 to |s|
      invariant out == HEADER + "\n" + Lines(MessageLines(s[..i]))
    {
      var escaped := EscapeContent(s[i].content);
      EncodeOneMore(s, i, out);
      out := out + (("M\t" + RoleName(s[i].role) + "\t" + escaped) + "\n");
    }
    assert s[..|s|] == s;
  }

  lemma EncodeOneMore(s: Session, i: nat, out: string)
    requires i < |s| && out == HEADER + "\n" + Lines(MessageLines(s[..i]))
    ensures out + (MessageLine(s[i]) + "\n") == HEADER + "\n" + Lines(MessageLines(s[..i + 1]))
  {
    var before, line := MessageLines(s[..i]), MessageLine(s[i]);
    MessageLinesSnoc(s, i);
    LinesAppend(before, [line]);
    LinesOne(line);
    Regroup(HEADER + "\n", Lines(before), line + "\n");
  }

  lemma MessageLinesSnoc(s: Session, i: nat)
    requires i < |s|
    ensures MessageLines(s[..i + 1]) == MessageLines(s[..i]) + [MessageLine(s[i])]
  {
  }

  datatype LineResult = Skip | Bad | Add(message: Message)

  /** One line of the body.  `add_message` takes a C string, so content ends at its first NUL. */
  function DecodeLine(line: string): LineResult
  {
    if line == "" || Blank(line) || line[0] == '#' then Skip
    else if |line| < 4 || line[0] != 'M' || line[1] != '\t' then Bad
    else
      var tab := FirstIndex(line[2..], '\t');
      if tab == |line| - 2 || tab == 0 || tab > 32 then Bad
      else
        match (RoleFromName(CStr(line[2..][..tab])), Unescape(line[2..][tab + 1..]))
        case (Some(role), Some(content)) => Add(Message(role, CStr(content)))
        case _ => Bad
  }

  function DecodeBody(data: string): Option<Session>
    decreases |data|
  {
    if data == "" then Some([])
    else
      match DecodeLine(FirstLine(data))
      case Skip => DecodeBody(AfterLine(data))
      case Bad => None
      case Add(m) => Pending([m], DecodeBody(AfterLine(data)))
  }

  function Decode(data: string): Option<Session>
  {
    if FirstLine(data) != HEADER then None else DecodeBody(AfterLine(data))
  }

  method DecodeSession(data: string) returns (s: Option<Session>)
    ensures s == Decode(data)
  {
    if FirstLine(data) != HEADER {
      return None;
    }
    var rest, messages := AfterLine(data), [];
    PendingStart(DecodeBody(rest));
    while rest != ""
      invariant Decode(data) == Pending(messages, DecodeBody(rest))
      decreases |rest|
    {
      var line := DecodeLine(FirstLine(rest));
      rest := AfterLine(rest);
      match line {
        case Skip =>
        case Bad =>
          return None;
        case Add(m) =>
          PendingStep(messages, m, DecodeBody(rest));
          messages := messages + [m];
      }
    }
    assert messages + [] == messages;
    return Some(messages);
  }

  function Pending(done: Session, rest: Option<Session>): Option<Session>
  {
    match rest
    case None => None
    case Some(tail) => Some(done + tail)
  }

  lemma PendingStart(rest: Option<Session>)
    ensures Pending([], rest) == rest
  {
    if rest.Some? {
      assert [] + rest.value == rest.value;
    }
  }

  lemma PendingStep(done: Session, m: Message, rest: Option<Session>)
    ensures Pending(done, Pending([m], rest)) == Pending(done + [m], rest)
  {
    if rest.Some? {
      assert done + ([m] + rest.value) == (done + [m]) + rest.value;
    }
  }

  // ---------------------------------------------------------------------------------------------
  // Round trip
  // ---------------------------------------------------------------------------------------------

  /** What a session becomes when its contents pass through C strings. */
  function Truncated(s: Session): Session
  {
    seq(|s|, i requires 0 <= i < |s| => Message(s[i].role, CStr(s[i].content)))
  }

  /** A string without the three characters that delimit lines and fields. */
  predicate OneField(s: string)
  {
    forall i :: 0 <= i < |s| ==> s[i] != '\n' && s[i] != '\t' && s[i] != '\r'
  }

  lemma OneFieldAppend(a: string, b: string)
    requires OneField(a) && OneField(b)
    ensures OneField(a + b)
  {
  }

  lemma EscapeCharIsOneField(c: char)
    ensures OneField(EscapeChar(c))
  {
    if Control(c) && c != '\n' && c != '\r' && c != '\t' {
      assert HEX[c as int / 16] in HEX && HEX[c as int % 16] in HEX;
    }
  }

  lemma {:induction false} EscapedIsOneField(s: string)
    ensures OneField(Escape(s))
  {
    if s != "" {
      EscapedIsOneField(s[1..]);
      EscapeCharIsOneField(s[0]);
      OneFieldAppend(EscapeChar(s[0]), Escape(s[1..]));
    }
  }

  lemma EscapeIsOneField(s: string)
    ensures '\n' !in Escape(s) && '\t' !in Escape(s) && '\r' !in Escape(s)
  {
    EscapedIsOneField(s);
  }

  lemma LineSplit(line: string, rest: string)
    requires '\n' !in line && '\r' !in line
    ensures FirstLine(line + "\n" + rest) == line && AfterLine(line + "\n" + rest) == rest
  {
    FirstIndexSkips(line, '\n', rest);
    Regroup(line, "\n", rest);
    assert (line + "\n" + rest)[..|line|] == line;
    assert line != "" ==> line[|line| - 1] in line;
  }

  lemma RoleNameIsPlain(role: Role)
    ensures RoleFromName(CStr(RoleName(role))) == Some(role)
    ensures 0 < |RoleName(role)| <= 32
    ensures '\t' !in RoleName(role) && '\n' !in RoleName(role) && '\r' !in RoleName(role)
  {
    assert '\0' !in RoleName(role);
    CStrNulFree(RoleName(role));
  }

  lemma DecodeFields(line: string, name: string, escaped: string)
    requires line == "M\t" + name + "\t" + escaped && '\t' !in name && 0 < |name| <= 32
    ensures DecodeLine(line) ==
      match (RoleFromName(CStr(name)), Unescape(escaped))
      case (Some(role), Some(content)) => Add(Message(role, CStr(content)))
      case _ => Bad
  {
    FirstIndexSkips(name, '\t', escaped);
    Regroup(name, "\t", escaped);
    assert line[2..] == name + "\t" + escaped;
    assert line[2..][..|name|] == name && line[2..][|name| + 1..] == escaped;
    assert line[0] == 'M' && line[1] == '\t' && !IsSpace(line[0]);
  }

  lemma DecodeEncodedLine(m: Message)
    ensures DecodeLine(MessageLine(m)) == Add(Message(m.role, CStr(m.content)))
    ensures '\n' !in MessageLine(m) && '\r' !in MessageLine(m)
  {
    RoleNameIsPlain(m.role);
    EscapeIsOneField(m.content);
    UnescapeEscape(m.content);
    DecodeFields(MessageLine(m), RoleName(m.role), Escape(m.content));
  }

  lemma DecodeOneLine(m: Message, body: string, rest: Session)
    requires DecodeBody(body) == Some(rest)
    ensures DecodeBody(MessageLine(m) + "\n" + body) == Some([Message(m.role, CStr(m.content))] + rest)
  {
    var data := MessageLine(m) + "\n" + body;
    DecodeEncodedLine(m);
    LineSplit(MessageLine(m), body);
    assert data != "";
  }

  lemma {:induction false} DecodeEncodedBody(s: Session)
    ensures DecodeBody(Lines(MessageLines(s))) == Some(Truncated(s))
  {
    if s == [] {
      assert MessageLines(s) == [] && Truncated(s) == [];
    } else {
      assert MessageLines(s) == [MessageLine(s[0])] + MessageLines(s[1..]);
      assert Truncated(s) == [Message(s[0].role, CStr(s[0].content))] + Truncated(s[1..]);
      DecodeEncodedBody(s[1..]);
      DecodeOneLine(s[0], Lines(MessageLines(s[1..])), Truncated(s[1..]));
      LinesCons(MessageLine(s[0]), MessageLines(s[1..]));
    }
  }

  /** Decoding undoes encoding on every session, up to the C-string view of its contents... */
  lemma DecodeEncode(s: Session)
    ensures Decode(Encode(s)) == Some(Truncated(s))
  {
    LineSplit(HEADER, Lines(MessageLines(s)));
    DecodeEncodedBody(s);
  }

  /** ... which changes nothing exactly when no content holds a NUL. */
  lemma DecodeEncodeExact(s: Session)
    ensures Decode(Encode(s)) == Some(s) <==> forall i :: 0 <= i < |s| ==> '\0' !in s[i].content
  {
    DecodeEncode(s);
    TruncatedExact(s);
  }

  lemma TruncatedExact(s: Session)
    ensures Truncated(s) == s <==> forall i :: 0 <= i < |s| ==> '\0' !in s[i].content
  {
    forall i | 0 <= i < |s|
      ensures Truncated(s)[i] == s[i] <==> '\0' !in s[i].content
    {
      CStrNulFree(s[i].content);
    }
  }
}
