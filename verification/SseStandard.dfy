/** The framed chunks as a client reads them that follows section 9.2 (server-sent events) of the WHATWG
    HTML Standard. */
module SseStandard {
  import opened Text
  import opened SseParser
  import opened SseFraming

  // ---------------------------------------------------------------------------------------------
  // The standard
  // ---------------------------------------------------------------------------------------------

  predicate IsBreak(c: char) { c == '\n' || c == '\r' }

  function FirstBreak(s: string): (i: nat)
    ensures i <= |s| && (i < |s| ==> IsBreak(s[i]))
  {
    if s == "" || IsBreak(s[0]) then 0 else 1 + FirstBreak(s[1..])
  }

  /** What follows the first line and its end. */
  function AfterBreak(s: string): (rest: string)
    requires FirstBreak(s) < |s|
    ensures |rest| < |s|
  {
    var i := FirstBreak(s);
    if s[i] == '\r' && i + 1 < |s| && s[i + 1] == '\n' then s[i + 2..] else s[i + 1..]
  }

  /** The lines of a stream: each ends in CR LF, LF or CR; what follows the last end is no line. */
  function StreamLines(s: string): seq<string>
    decreases |s|
  {
    var i := FirstBreak(s);
    if i == |s| then [] else [s[..i]] + StreamLines(AfterBreak(s))
  }

  /** The data of the events that the lines dispatch, `buffer` being the data buffer. */
  function Dispatched(lines: seq<string>, buffer: string): seq<string>
    decreases |lines|
  {
    if lines == [] then []
    else if lines[0] == "" then
      (if buffer == "" then [] else [DropLast(buffer)]) + Dispatched(lines[1..], "")
    else if lines[0][0] != ':' && FieldOf(lines[0]).0 == "data" then
      Dispatched(lines[1..], buffer + (FieldOf(lines[0]).1 + "\n"))
    else Dispatched(lines[1..], buffer)
  }

  function Interpreted(s: string): seq<string> { Dispatched(StreamLines(s), "") }

  // ---------------------------------------------------------------------------------------------
  // A framed chunk
  // ---------------------------------------------------------------------------------------------

  predicate Plain(s: string) { forall i :: 0 <= i < |s| ==> !IsBreak(s[i]) }

  lemma {:induction false} BreakAfter(line: string, rest: string)
    requires Plain(line)
    ensures FirstBreak(line + ("\n" + rest)) == |line|
  {
    var s := line + ("\n" + rest);
    if line == "" {
      assert s[0] == '\n';
    } else {
      assert s[0] == line[0] && s[1..] == line[1..] + ("\n" + rest);
      BreakAfter(line[1..], rest);
    }
  }

  lemma LineOf(line: string, rest: string)
    requires Plain(line)
    ensures StreamLines(line + ("\n" + rest)) == [line] + StreamLines(rest)
  {
    var s := line + ("\n" + rest);
    BreakAfter(line, rest);
    assert s[|line|] == '\n' && s[..|line|] == line && s[|line| + 1..] == rest;
  }

  predicate AllPlain(lines: seq<string>)
  {
    forall k :: 0 <= k < |lines| ==> Plain(TrimCr(lines[k]))
  }

  lemma PlainField(value: string)
    requires Plain(value)
    ensures Plain("data: " + value)
  {
  }

  lemma OneField(value: string, lines: seq<string>, buffer: string)
    ensures Dispatched(["data: " + value] + lines, buffer) == Dispatched(lines, buffer + (value + "\n"))
  {
    var line := "data: " + value;
    DataFieldOf(value);
    assert line[0] == 'd';
    assert ([line] + lines)[0] == line && ([line] + lines)[1..] == lines;
  }

  lemma {:induction false} FieldsDispatch(lines: seq<string>, buffer: string)
    requires AllPlain(lines)
    ensures Dispatched(StreamLines(DataFields(lines) + "\n"), buffer) ==
      Dispatched([""], buffer + Lines(Trimmed(lines)))
    decreases |lines|
  {
    if lines == [] {
      assert "" + ("\n" + "") == DataFields(lines) + "\n";
      LineOf("", "");
      assert [""] + StreamLines("") == [""];
      assert buffer + "" == buffer;
    } else {
      var value, rest := TrimCr(lines[0]), lines[1..];
      PlainField(value);
      assert DataFields(lines) + "\n" == ("data: " + value) + ("\n" + (DataFields(rest) + "\n"));
      LineOf("data: " + value, DataFields(rest) + "\n");
      OneField(value, StreamLines(DataFields(rest) + "\n"), buffer);
      PlainRest(lines);
      FieldsDispatch(rest, buffer + (value + "\n"));
      TrimmedFirst(lines);
      Regroup(buffer, value + "\n", Lines(Trimmed(rest)));
    }
  }

  lemma PlainRest(lines: seq<string>)
    requires AllPlain(lines) && lines != []
    ensures AllPlain(lines[1..])
  {
  }

  lemma TrimmedFirst(lines: seq<string>)
    requires lines != []
    ensures Lines(Trimmed(lines)) == (TrimCr(lines[0]) + "\n") + Lines(Trimmed(lines[1..]))
  {
    assert lines == [lines[0]] + lines[1..];
    TrimmedCons(lines[0], lines[1..]);
    LinesCons(TrimCr(lines[0]), Trimmed(lines[1..]));
  }

  lemma BlankDispatches(buffer: string)
    requires buffer != ""
    ensures Dispatched([""], buffer) == [DropLast(buffer)]
  {
    assert [""][1..] == [];
    assert [DropLast(buffer)] + [] == [DropLast(buffer)];
  }

  predicate NoCr(s: string) { forall i :: 0 <= i < |s| ==> s[i] != '\r' }

  lemma {:induction false} JoinedWithoutCr(lines: seq<string>, k: nat)
    requires NoCr(Join(lines)) && k < |lines|
    ensures NoCr(lines[k])
  {
    if |lines| > 1 {
      assert lines == [lines[0]] + lines[1..];
      JoinCons(lines[0], lines[1..]);
      var tail := "\n" + Join(lines[1..]);
      assert forall i :: 0 <= i < |lines[0]| ==> Join(lines)[i] == lines[0][i];
      assert forall i :: 0 <= i < |Join(lines[1..])| ==> Join(lines)[|lines[0]| + 1 + i] == Join(lines[1..])[i];
      if k > 0 {
        JoinedWithoutCr(lines[1..], k - 1);
      }
    }
  }

  lemma LinesArePlain(data: string)
    requires NoCr(DropLineCrs(data))
    ensures AllPlain(SplitLf(data))
  {
    JoinedLines(data);
    PartsHaveNoLf(data);
    forall k | 0 <= k < |SplitLf(data)|
      ensures Plain(TrimCr(SplitLf(data)[k]))
    {
      JoinedWithoutCr(Trimmed(SplitLf(data)), k);
      TrimmedHasNoLf(SplitLf(data)[k]);
    }
  }

  lemma LinesStep(s: string)
    requires StreamLines(s) != []
    ensures FirstBreak(s) < |s| && StreamLines(s) == [s[..FirstBreak(s)]] + StreamLines(AfterBreak(s))
  {
  }

  lemma {:induction false} StreamLinesHaveNoCr(s: string, k: nat)
    requires k < |StreamLines(s)|
    ensures NoCr(StreamLines(s)[k])
    decreases |s|
  {
    LinesStep(s);
    if k == 0 {
      NoBreakBefore(s);
    } else {
      StreamLinesHaveNoCr(AfterBreak(s), k - 1);
    }
  }

  lemma {:induction false} NoBreakBefore(s: string)
    ensures Plain(s[..FirstBreak(s)])
  {
    if s != "" && !IsBreak(s[0]) {
      NoBreakBefore(s[1..]);
      var i := FirstBreak(s[1..]);
      assert s[..i + 1] == [s[0]] + s[1..][..i];
    }
  }

  predicate AllNoCr(lines: seq<string>)
  {
    forall k :: 0 <= k < |lines| ==> NoCr(lines[k])
  }

  lemma ValueHasNoCr(line: string)
    requires NoCr(line)
    ensures NoCr(FieldOf(line).1)
  {
  }

  lemma NoCrAppend(a: string, b: string)
    requires NoCr(a) && NoCr(b)
    ensures NoCr(a + (b + "\n")) && NoCr(DropLast(a))
  {
  }

  lemma {:induction false} DispatchedHaveNoCr(lines: seq<string>, buffer: string)
    requires AllNoCr(lines) && NoCr(buffer)
    ensures AllNoCr(Dispatched(lines, buffer))
    decreases |lines|
  {
    if lines != [] {
      var line, rest := lines[0], lines[1..];
      assert AllNoCr(rest);
      NoCrAppend(buffer, "");
      DispatchedHaveNoCr(rest, "");
      if line != "" {
        ValueHasNoCr(line);
        NoCrAppend(buffer, FieldOf(line).1);
        DispatchedHaveNoCr(rest, buffer + (FieldOf(line).1 + "\n"));
        DispatchedHaveNoCr(rest, buffer);
      }
    }
  }

  /** No event that the standard reads from a stream has a carriage return in its data. */
  lemma EventsHaveNoCr(s: string)
    ensures AllNoCr(Interpreted(s))
  {
    forall k | 0 <= k < |StreamLines(s)|
      ensures NoCr(StreamLines(s)[k])
    {
      StreamLinesHaveNoCr(s, k);
    }
    DispatchedHaveNoCr(StreamLines(s), "");
  }

  /** A client that follows the standard gets one event for a chunk, its data the chunk without the
      carriage returns just before a line feed or at the end, exactly when the chunk has no others:
      a lone carriage return ends a line there. */
  lemma RoundTripThroughStandard(data: string)
    ensures Interpreted(Frame(data)) == [DropLineCrs(data)] <==> NoCr(DropLineCrs(data))
  {
    if NoCr(DropLineCrs(data)) {
      CleanChunkIsOneEvent(data);
    }
    EventsHaveNoCr(Frame(data));
    if Interpreted(Frame(data)) == [DropLineCrs(data)] {
      assert NoCr(Interpreted(Frame(data))[0]);
    }
  }

  lemma CleanChunkIsOneEvent(data: string)
    requires NoCr(DropLineCrs(data))
    ensures Interpreted(Frame(data)) == [DropLineCrs(data)]
  {
    var lines := SplitLf(data);
    LinesArePlain(data);
    FieldsDispatch(lines, "");
    assert "" + Lines(Trimmed(lines)) == Lines(Trimmed(lines));
    LinesAreJoined(Trimmed(lines));
    JoinedLines(data);
    BlankDispatches(Lines(Trimmed(lines)));
    assert DropLast(DropLineCrs(data) + "\n") == DropLineCrs(data);
  }
}
