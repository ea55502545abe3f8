/** The session format in characters: what files of other writers mean, and what is written. */
module SessionFormat {
  import opened Text
  import opened Messages
  import opened SessionCodec

  /** The four roles by name. */
  lemma RolesByName(name: string)
    ensures RoleName(System) == "system" && RoleName(User) == "user"
    ensures RoleName(Assistant) == "assistant" && RoleName(Tool) == "tool"
    ensures RoleFromName(name).Some? <==> name in ["system", "user", "assistant", "tool"]
    ensures forall role :: RoleFromName(name) == Some(role) <==> RoleName(role) == name
  {
    assert |"system"| == 6 && |"user"| == 4 && |"assistant"| == 9 && |"tool"| == 4;
    assert "user"[0] == 'u' && "tool"[0] == 't';
  }

  /** Text that is stored as it is: no backslash, no control character. */
  predicate PlainText(s: string)
  {
    forall i :: 0 <= i < |s| ==> s[i] != '\\' && 32 <= s[i] as int != 127
  }

  lemma {:induction false} PlainIsStored(s: string)
    requires PlainText(s)
    ensures Escape(s) == s
  {
    if s != "" {
      PlainIsStored(s[1..]);
      assert [s[0]] + s[1..] == s;
    }
  }

  /** The escapes: four by letter, the other control characters by two upper-case hexadecimal digits. */
  lemma EscapesInCharacters(c: char)
    ensures EscapeChar(c) ==
      if c == '\\' then ['\\', '\\']
      else if c as int == 10 then ['\\', 'n']
      else if c as int == 13 then ['\\', 'r']
      else if c as int == 9 then ['\\', 't']
      else if c as int < 32 || c as int == 127 then ['\\', 'x', "0123456789ABCDEF"[c as int / 16], "0123456789ABCDEF"[c as int % 16]]
      else [c]
  {
  }

  lemma EscapeInFront(c: char, s: string)
    ensures Escape([c] + s) == EscapeChar(c) + Escape(s)
  {
    assert ([c] + s)[1..] == s;
  }

  /** A session is a header line and, message by message, `M`, the role and the escaped content between
      tabs. */
  lemma WrittenInCharacters(s: Session, m: Message)
    ensures Encode([]) == "AGENT_SESSION\t1\n"
    ensures Encode(s + [m]) == Encode(s) + ("M\t" + RoleName(m.role) + "\t" + Escape(m.content) + "\n")
  {
    assert MessageLines([]) == [];
    assert HEADER + "\n" + "" == "AGENT_SESSION\t1\n";
    assert MessageLines(s + [m]) == MessageLines(s) + [MessageLine(m)];
    LinesAppend(MessageLines(s), [MessageLine(m)]);
    LinesOne(MessageLine(m));
    Regroup(HEADER + "\n", Lines(MessageLines(s)), MessageLine(m) + "\n");
  }

  // ---------------------------------------------------------------------------------------------
  // Reading
  // ---------------------------------------------------------------------------------------------

  lemma FirstLineOf(line: string, rest: string)
    requires '\n' !in line && TrimCr(line) == line
    ensures FirstLine(line + ("\n" + rest)) == line && AfterLine(line + ("\n" + rest)) == rest
  {
    var text := line + ("\n" + rest);
    FirstIndexSkips(line, '\n', rest);
    assert text[..|line|] == line && text[|line| + 1..] == rest;
  }

  /** Blank lines and lines that begin with a hash are skipped, wherever they are. */
  lemma SkippedLine(line: string, rest: string)
    requires '\n' !in line && TrimCr(line) == line && (Blank(line) || line[0] == '#')
    ensures DecodeBody(line + ("\n" + rest)) == DecodeBody(rest)
  {
    FirstLineOf(line, rest);
  }

  /** A message in front of others. */
  lemma ReadInCharacters(role: Role, content: string, rest: string)
    requires PlainText(content)
    ensures DecodeBody("M\t" + (RoleName(role) + ("\t" + content)) + ("\n" + rest)) ==
      match DecodeBody(rest)
      case None => None
      case Some(others) => Some([Message(role, content)] + others)
  {
    var line := "M\t" + (RoleName(role) + ("\t" + content));
    LineIsPlain(role, content);
    FirstLineOf(line, rest);
    LineIsMessage(role, content);
  }

  lemma LineIsPlain(role: Role, content: string)
    requires PlainText(content)
    ensures
      var line := "M\t" + (RoleName(role) + ("\t" + content));
      '\n' !in line && TrimCr(line) == line
  {
    var line := "M\t" + (RoleName(role) + ("\t" + content));
    assert '\n' !in RoleName(role) && '\n' !in content;
    assert line[|line| - 1] == if content == "" then '\t' else content[|content| - 1];
  }

  lemma {:induction false} PlainIsRead(s: string)
    requires PlainText(s)
    ensures Unescape(s) == Some(s) && CStr(s) == s
  {
    CStrNulFree(s);
    if s != "" {
      PlainIsRead(s[1..]);
      assert [s[0]] + s[1..] == s;
    }
  }

  lemma LineIsMessage(role: Role, content: string)
    requires PlainText(content)
    ensures DecodeLine("M\t" + (RoleName(role) + ("\t" + content))) == Add(Message(role, content))
  {
    RolesByName(RoleName(role));
    NameIsPlain(role);
    NamedLine(RoleName(role), role, content);
  }

  lemma NameIsPlain(role: Role)
    ensures 0 < |RoleName(role)| <= 32 && '\t' !in RoleName(role) && '\0' !in RoleName(role)
  {
  }

  lemma NamedLine(name: string, role: Role, content: string)
    requires 0 < |name| <= 32 && '\t' !in name && '\0' !in name && RoleFromName(name) == Some(role) && PlainText(content)
    ensures DecodeLine("M\t" + (name + ("\t" + content))) == Add(Message(role, content))
  {
    var line := "M\t" + (name + ("\t" + content));
    LineParts(name, content);
    PlainIsRead(content);
    CStrNulFree(name);
    NotBlank(line);
    DecodesTo(line, name, role, content);
  }

  lemma LineParts(name: string, content: string)
    requires '\t' !in name
    ensures
      var line := "M\t" + (name + ("\t" + content));
      && |line| == 3 + |name| + |content| && line[0] == 'M' && line[1] == '\t'
      && FirstIndex(line[2..], '\t') == |name| && line[2..][..|name|] == name && line[2..][|name| + 1..] == content
  {
    var line := "M\t" + (name + ("\t" + content));
    assert line[2..] == name + ("\t" + content);
    FirstIndexSkips(name, '\t', content);
    assert (name + ("\t" + content))[|name| + 1..] == content;
  }

  lemma DecodesTo(line: string, name: string, role: Role, content: string)
    requires |line| >= 4 && !Blank(line) && line[0] == 'M' && line[1] == '\t' && 0 < |name| <= 32
    requires FirstIndex(line[2..], '\t') == |name| < |line| - 2 && line[2..][..|name|] == name
    requires line[2..][|name| + 1..] == content && Unescape(content) == Some(content) && CStr(content) == content
    requires CStr(name) == name && RoleFromName(name) == Some(role)
    ensures DecodeLine(line) == Add(Message(role, content))
  {
  }

  lemma NotBlank(line: string)
    requires line != "" && line[0] == 'M'
    ensures !Blank(line)
  {
  }

  /** The header has to be there, and no other. */
  lemma HeaderInCharacters(data: string)
    ensures Decode(data).Some? ==> FirstLine(data) == "AGENT_SESSION\t1"
    ensures FirstLine(data) == "AGENT_SESSION\t1" ==> Decode(data) == DecodeBody(AfterLine(data))
  {
  }

  /** A line of any other form makes the file unreadable. */
  lemma OtherLineFails(line: string, rest: string)
    requires '\n' !in line && TrimCr(line) == line && !Blank(line) && line[0] != '#' && !("M\t" <= line)
    ensures DecodeBody(line + ("\n" + rest)) == None
  {
    FirstLineOf(line, rest);
    MessageStart(line);
  }

  lemma MessageStart(line: string)
    ensures "M\t" <= line <==> |line| >= 2 && line[0] == 'M' && line[1] == '\t'
  {
  }

  // ---------------------------------------------------------------------------------------------
  // Reading escapes
  // ---------------------------------------------------------------------------------------------

  /** Hexadecimal digits are read in either case. */
  lemma HexInCharacters(d: nat)
    requires d < 16
    ensures HexValue("0123456789ABCDEF"[d]) == Some(d) && HexValue("0123456789abcdef"[d]) == Some(d)
    ensures forall c: char :: HexValue(c).Some? <==> '0' <= c <= '9' || 'a' <= c <= 'f' || 'A' <= c <= 'F'
  {
  }

  /** After a backslash there stands one of five letters, an `x` with two hexadecimal digits; anything else
      cannot be read. */
  lemma EscapeReadInFront(c: char, rest: string)
    ensures c == '\\' ==> Unescape("\\" + ([c] + rest)) == Then('\\', Unescape(rest))
    ensures c == 'n' ==> Unescape("\\" + ([c] + rest)) == Then(10 as char, Unescape(rest))
    ensures c == 'r' ==> Unescape("\\" + ([c] + rest)) == Then(13 as char, Unescape(rest))
    ensures c == 't' ==> Unescape("\\" + ([c] + rest)) == Then(9 as char, Unescape(rest))
    ensures c !in ['\\', 'n', 'r', 't', 'x'] ==> Unescape("\\" + ([c] + rest)) == None
    ensures Unescape("\\") == None
  {
    var s := "\\" + ([c] + rest);
    assert s[0] == '\\' && s[1] == c && s[2..] == rest;
  }

  function Then(c: char, rest: Option<string>): Option<string>
  {
    if rest.None? then None else Some([c] + rest.value)
  }

  lemma HexEscapeReadInFront(a: char, b: char, rest: string)
    ensures Unescape("\\x" + ([a, b] + rest)) ==
      if HexValue(a).None? || HexValue(b).None? then None
      else Then((HexValue(a).value * 16 + HexValue(b).value) as char, Unescape(rest))
    ensures Unescape("\\x") == None && Unescape("\\x" + [a]) == None
  {
    var s := "\\x" + ([a, b] + rest);
    assert s[0] == '\\' && s[1] == 'x' && s[2] == a && s[3] == b && s[4..] == rest;
    assert ("\\x" + [a])[1] == 'x' && ("\\x" + [a])[0] == '\\';
  }
}
