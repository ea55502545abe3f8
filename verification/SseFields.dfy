/** What each kind of line does to the event that is being collected, in characters. */
module SseFields {
  import opened Text
  import opened SseParser

  predicate OneLine(line: string)
  {
    line != "" && line[|line| - 1] != '\r'
  }

  /** The value after a colon, one space dropped. */
  lemma FieldInCharacters(field: string, value: string)
    requires ':' !in field
    ensures FieldOf(field + (":" + (" " + value))) == (field, value)
    ensures (value != "" ==> value[0] != ' ') ==> FieldOf(field + (":" + value)) == (field, value)
    ensures FieldOf(field) == (field, "")
  {
    FirstIndexSkips(field, ':', " " + value);
    FirstIndexSkips(field, ':', value);
    FirstIndexAfter(field, "", ':');
    Nothing(field);
    ColonSplits(field, " " + value);
    ColonSplits(field, value);
    assert (" " + value)[1..] == value;
    assert (value != "" ==> value[0] != ' ') ==> !StartsWith(value, " ");
  }

  lemma ColonSplits(field: string, value: string)
    ensures (field + (":" + value))[..|field|] == field && (field + (":" + value))[|field| + 1..] == value
  {
  }

  /** Event names and ids: the last one counts.  Data lines are joined by line feeds.  Other fields and
      comments change nothing. */
  lemma LinesInCharacters(p: Parser, field: string, value: string)
    requires ':' !in field && field != "" && OneLine(field + (":" + (" " + value)))
    ensures Collect(p, field + (":" + (" " + value))) ==
      if field == "event" then p.(name := value)
      else if field == "id" then p.(id := value)
      else if field == "data" then p.(data := p.data + value + "\n")
      else p
    ensures Collect(p, field + (":" + (" " + value)) + "\r") == Collect(p, field + (":" + (" " + value)))
  {
    var line := field + (":" + (" " + value));
    FieldInCharacters(field, value);
    assert line[0] == field[0];
    assert (line + "\r")[..|line|] == line;
  }

  lemma CommentLine(p: Parser, text: string)
    ensures Collect(p, ":" + text) == p
  {
    assert (":" + text)[0] == ':' && TrimCr(":" + text)[0] == ':';
  }

  /** A blank line ends the event if there is one, which is its name, its id and its data without the last
      line feed, and starts the next one afresh. */
  lemma BlankLine(p: Parser, rest: string)
    requires p.buf == "\n" + rest || p.buf == "\r\n" + rest
    ensures HasLine(p) && Advance(p) == Parser(rest, "", "", "")
    ensures Emitted(p) ==
      if p.name == "" && p.id == "" && p.data == "" then []
      else [Event(p.name, p.id,
                  if p.data != "" && p.data[|p.data| - 1] == '\n' then p.data[..|p.data| - 1] else p.data)]
  {
    var raw := if p.buf == "\n" + rest then "" else "\r";
    assert p.buf == raw + ("\n" + rest);
    FirstIndexSkips(raw, '\n', rest);
    assert p.buf[..|raw|] == raw && p.buf[|raw| + 1..] == rest;
    assert TrimCr(raw) == "";
  }
}
