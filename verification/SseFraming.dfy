/** Chunks of a model's stream, put back into server-sent events for the core's decoder. */
module SseFraming {
  import opened Text
  import opened SseParser

  // ---------------------------------------------------------------------------------------------
  // Framing
  // ---------------------------------------------------------------------------------------------

  /** The parts between line feeds; one more than there are line feeds. */
  function SplitLf(s: string): (parts: seq<string>)
    ensures parts != []
    decreases |s|
  {
    var i := FirstIndex(s, '\n');
    if i == |s| then [s] else [s[..i]] + SplitLf(s[i + 1..])
  }

  /** A data field for each line, less one carriage return at its end. */
  function DataFields(lines: seq<string>): string
  {
    if lines == [] then "" else "data: " + TrimCr(lines[0]) + "\n" + DataFields(lines[1..])
  }

  function Frame(data: string): string { DataFields(SplitLf(data)) + "\n" }

  /** The text less the carriage returns just before a line feed or at the end. */
  function DropLineCrs(s: string): string
  {
    if s == "" then ""
    else if s[0] == '\r' && (|s| == 1 || s[1] == '\n') then DropLineCrs(s[1..])
    else [s[0]] + DropLineCrs(s[1..])
  }

  function Join(lines: seq<string>): string
  {
    if lines == [] then ""
    else if |lines| == 1 then lines[0]
    else lines[0] + "\n" + Join(lines[1..])
  }

  function Trimmed(lines: seq<string>): (r: seq<string>)
    ensures |r| == |lines|
  {
    seq(|lines|, i requires 0 <= i < |lines| => TrimCr(lines[i]))
  }

  lemma TrimmedCons(line: string, rest: seq<string>)
    ensures Trimmed([line] + rest) == [TrimCr(line)] + Trimmed(rest)
  {
  }

  lemma {:induction false} DropOfLastLine(s: string)
    requires '\n' !in s
    ensures DropLineCrs(s) == TrimCr(s)
  {
    if |s| > 1 {
      assert s[1..][|s| - 2] == s[|s| - 1];
      assert s[1] in s;
      DropOfLastLine(s[1..]);
      assert TrimCr(s) == [s[0]] + TrimCr(s[1..]);
    } else if |s| == 1 {
      assert s[..0] == "" && s[1..] == "" && [s[0]] + "" == s;
    }
  }

  lemma TrimOfLonger(s: string)
    requires |s| > 1
    ensures TrimCr(s) == [s[0]] + TrimCr(s[1..])
  {
    assert s[1..][|s| - 2] == s[|s| - 1];
  }

  lemma {:induction false} DropOfLine(s: string, rest: string)
    requires '\n' !in s
    ensures DropLineCrs(s + ("\n" + rest)) == TrimCr(s) + ("\n" + DropLineCrs(rest))
  {
    var t := s + ("\n" + rest);
    if s == "" {
      assert t[0] == '\n' && t[1..] == rest;
    } else {
      assert t[0] == s[0] && t[1..] == s[1..] + ("\n" + rest);
      assert s[0] in s;
      DropOfLine(s[1..], rest);
      if |s| == 1 {
        assert t[1] == '\n' && s[1..] == "" && s[..0] == "";
        assert "" + ("\n" + DropLineCrs(rest)) == "\n" + DropLineCrs(rest);
      } else {
        assert t[1] == s[1] && s[1] in s;
        TrimOfLonger(s);
        Regroup([s[0]], TrimCr(s[1..]), "\n" + DropLineCrs(rest));
      }
    }
  }

  lemma CutAt(s: string, i: nat)
    requires i < |s| && s[i] == '\n'
    ensures s == s[..i] + ("\n" + s[i + 1..])
  {
  }

  /** The lines, trimmed and joined again, are the text less those carriage returns: empty lines and a
      line feed at the end stay. */
  lemma {:induction false} JoinedLines(s: string)
    ensures Join(Trimmed(SplitLf(s))) == DropLineCrs(s)
    decreases |s|
  {
    var i := FirstIndex(s, '\n');
    NoneBefore(s, '\n');
    if i == |s| {
      assert s[..i] == s;
      DropOfLastLine(s);
    } else {
      CutAt(s, i);
      JoinedLines(s[i + 1..]);
      DropOfLine(s[..i], s[i + 1..]);
      TrimmedCons(s[..i], SplitLf(s[i + 1..]));
      JoinCons(TrimCr(s[..i]), Trimmed(SplitLf(s[i + 1..])));
    }
  }

  lemma JoinCons(line: string, rest: seq<string>)
    requires rest != []
    ensures Join([line] + rest) == line + ("\n" + Join(rest))
  {
    assert ([line] + rest)[1..] == rest;
    assert line + "\n" + Join(rest) == line + ("\n" + Join(rest));
  }

  lemma SplitStep(data: string, start: nat, i: nat)
    requires start <= i <= |data| && '\n' !in data[start..i] && (i < |data| ==> data[i] == '\n')
    ensures SplitLf(data[start..]) ==
      if i == |data| then [data[start..i]] else [data[start..i]] + SplitLf(data[i + 1..])
  {
    var s := data[start..];
    SliceOf(data, start, i);
    FirstIs(s, i - start);
  }

  lemma SliceOf(data: string, start: nat, i: nat)
    requires start <= i <= |data|
    ensures data[start..][..i - start] == data[start..i]
    ensures i < |data| ==> data[start..][i - start + 1..] == data[i + 1..]
    ensures i == |data| ==> data[start..] == data[start..i]
  {
  }

  lemma {:induction false} FirstIs(s: string, i: nat)
    requires i <= |s| && '\n' !in s[..i] && (i < |s| ==> s[i] == '\n')
    ensures FirstIndex(s, '\n') == i
  {
    if i > 0 {
      assert s[0] == s[..i][0];
      assert s[1..][..i - 1] == s[..i][1..];
      FirstIs(s[1..], i - 1);
    }
  }

  /** `buf` holds the fields of the lines before `start`. */
  predicate Framed(data: string, start: nat, buf: string)
    requires start <= |data|
  {
    buf + DataFields(SplitLf(data[start..])) == DataFields(SplitLf(data))
  }

  lemma FramedStart(data: string)
    ensures Framed(data, 0, "")
  {
    assert data[0..] == data;
    assert "" + DataFields(SplitLf(data)) == DataFields(SplitLf(data));
  }

  function Field(line: string): string { "data: " + TrimCr(line) + "\n" }

  lemma FramedStep(data: string, start: nat, i: nat, buf: string)
    requires start <= i < |data| && '\n' !in data[start..i] && data[i] == '\n' && Framed(data, start, buf)
    ensures Framed(data, i + 1, buf + Field(data[start..i]))
  {
    SplitStep(data, start, i);
    FieldsCons(data[start..i], SplitLf(data[i + 1..]));
    Regroup(buf, Field(data[start..i]), DataFields(SplitLf(data[i + 1..])));
  }

  lemma FramedEnd(data: string, start: nat, buf: string)
    requires start <= |data| && '\n' !in data[start..|data|] && Framed(data, start, buf)
    ensures buf + Field(data[start..|data|]) == DataFields(SplitLf(data))
  {
    SplitStep(data, start, |data|);
    FieldsCons(data[start..|data|], []);
    assert [data[start..|data|]] + [] == [data[start..|data|]];
    assert Field(data[start..|data|]) + "" == Field(data[start..|data|]);
  }

  lemma FieldsCons(line: string, rest: seq<string>)
    ensures DataFields([line] + rest) == Field(line) + DataFields(rest)
  {
    assert ([line] + rest)[1..] == rest;
  }

  /** `feed_data_as_sse`: the bytes fed to the decoder; empty data feeds none. */
  method FrameData(data: string) returns (buf: string)
    ensures data == "" ==> buf == ""
    ensures data != "" ==> buf == Frame(data)
  {
    if data == "" { return ""; }
    buf := "";
    var start := 0;
    FramedStart(data);
    for i := 0 to |data|
      invariant start <= i && '\n' !in data[start..i] && Framed(data, start, buf)
    {
      if data[i] == '\n' {
        FramedStep(data, start, i, buf);
        buf := buf + Field(data[start..i]);
        start := i + 1;
      } else {
        assert data[start..i + 1] == data[start..i] + [data[i]];
      }
    }
    FramedEnd(data, start, buf);
    buf := buf + Field(data[start..|data|]);
    buf := buf + "\n";
  }

  // ---------------------------------------------------------------------------------------------
  // The framed lines
  // ---------------------------------------------------------------------------------------------

  predicate NoLf(s: string) { forall i :: 0 <= i < |s| ==> s[i] != '\n' }

  predicate AllNoLf(lines: seq<string>) { forall k :: 0 <= k < |lines| ==> NoLf(lines[k]) }

  lemma {:induction false} PartsHaveNoLf(s: string)
    ensures AllNoLf(SplitLf(s))
    decreases |s|
  {
    var i := FirstIndex(s, '\n');
    NoneBefore(s, '\n');
    assert forall k :: 0 <= k < i ==> s[k] == s[..i][k];
    assert NoLf(s[..i]);
    if i == |s| {
      assert s[..i] == s;
    } else {
      PartsHaveNoLf(s[i + 1..]);
    }
  }

  lemma {:induction false} NoIndex(s: string)
    requires NoLf(s)
    ensures FirstIndex(s, '\n') == |s|
  {
    if s != "" {
      NoIndex(s[1..]);
    }
  }

  lemma SplitOfLine(line: string, rest: string)
    requires NoLf(line)
    ensures SplitLf(line + ("\n" + rest)) == [line] + SplitLf(rest)
  {
    var s := line + ("\n" + rest);
    FirstIndexSkips(line, '\n', rest);
    assert s[..|line|] == line && s[|line| + 1..] == rest;
  }

  lemma SplitOfLast(line: string)
    requires NoLf(line)
    ensures SplitLf(line) == [line]
  {
    NoIndex(line);
  }

  lemma TrimmedHasNoLf(line: string)
    requires NoLf(line)
    ensures NoLf(TrimCr(line))
  {
  }

  /** Splitting the cleaned text gives the cleaned lines. */
  lemma {:induction false} SplitOfJoin(lines: seq<string>)
    requires lines != [] && AllNoLf(lines)
    ensures SplitLf(Join(lines)) == lines
  {
    if |lines| == 1 {
      SplitOfLast(lines[0]);
      assert lines == [lines[0]];
    } else {
      SplitOfJoin(lines[1..]);
      Regroup(lines[0], "\n", Join(lines[1..]));
      SplitOfLine(lines[0], Join(lines[1..]));
      assert lines == [lines[0]] + lines[1..];
    }
  }

  lemma TrimmedLinesHaveNoLf(lines: seq<string>)
    requires AllNoLf(lines)
    ensures AllNoLf(Trimmed(lines))
  {
    forall k | 0 <= k < |lines|
      ensures NoLf(Trimmed(lines)[k])
    {
      TrimmedHasNoLf(lines[k]);
    }
  }

  /** Cleaning twice is trimming each line twice. */
  lemma DropTwice(data: string)
    ensures DropLineCrs(DropLineCrs(data)) == Join(Trimmed(Trimmed(SplitLf(data))))
  {
    PartsHaveNoLf(data);
    JoinedLines(data);
    TrimmedLinesHaveNoLf(SplitLf(data));
    SplitOfJoin(Trimmed(SplitLf(data)));
    JoinedLines(DropLineCrs(data));
  }

  // ---------------------------------------------------------------------------------------------
  // Through the core's own parser
  // ---------------------------------------------------------------------------------------------

  lemma ParseStep(p: Parser)
    requires HasLine(p)
    ensures Parse(p) == (Emitted(p) + Parse(Advance(p)).0, Parse(Advance(p)).1)
  {
    LineMachineIsValid();
    assert LineMachine().next(p) == Some((Emitted(p), Advance(p)));
  }

  lemma NextIs(p: Parser, line: string, rest: string)
    requires NoLf(line) && p.buf == line + ("\n" + rest)
    ensures HasLine(p) && NextLine(p) == line && Advance(p) == Collect(p.(buf := rest), line)
  {
    FirstIndexSkips(line, '\n', rest);
    assert p.buf[..|line|] == line && p.buf[|line| + 1..] == rest;
  }

  lemma DataFieldOf(value: string)
    ensures FieldOf("data: " + value) == ("data", value)
  {
    var line := "data: " + value;
    assert line[0] == 'd' && line[1] == 'a' && line[2] == 't' && line[3] == 'a' && line[4] == ':';
    assert line[1..][0] == 'a' && line[1..][1..] == line[2..] && line[2..][1..] == line[3..] && line[3..][1..] == line[4..];
    assert FirstIndex(line[4..], ':') == 0;
    assert FirstIndex(line[3..], ':') == 1;
    assert FirstIndex(line[2..], ':') == 2;
    assert FirstIndex(line[1..], ':') == 3;
    assert line[..4] == "data" && line[5..] == " " + value && (" " + value)[1..] == value;
  }

  lemma TrimmedField(value: string)
    ensures TrimCr("data: " + value) == "data: " + TrimCr(value)
  {
    var line := "data: " + value;
    if value != "" {
      assert line[|line| - 1] == value[|value| - 1];
      assert line[..|line| - 1] == "data: " + value[..|value| - 1];
    }
  }

  lemma CollectData(p: Parser, value: string)
    ensures Collect(p, "data: " + value) == p.(data := p.data + (TrimCr(value) + "\n"))
    ensures !Emits(p, "data: " + value)
  {
    TrimmedField(value);
    DataFieldOf(TrimCr(value));
    Regroup(p.data, TrimCr(value), "\n");
  }

  /** One framed line: no event, and the line, trimmed once more, is collected. */
  lemma ParseOneField(value: string, tail: string, so: string)
    requires NoLf(value)
    ensures Parse(Parser("data: " + value + "\n" + tail, "", "", so)) ==
      Parse(Parser(tail, "", "", so + (TrimCr(value) + "\n")))
  {
    var p := Parser("data: " + value + "\n" + tail, "", "", so);
    Regroup("data: " + value, "\n", tail);
    NextIs(p, "data: " + value, tail);
    CollectData(p.(buf := tail), value);
    ParseStep(p);
    var q := Parser(tail, "", "", so + (TrimCr(value) + "\n"));
    assert [] + Parse(q).0 == Parse(q).0;
  }

  lemma {:induction false} ParseFields(lines: seq<string>, tail: string, so: string)
    requires AllNoLf(lines)
    ensures Parse(Parser(DataFields(lines) + tail, "", "", so)) ==
      Parse(Parser(tail, "", "", so + Lines(Trimmed(Trimmed(lines)))))
    decreases |lines|
  {
    if lines == [] {
      assert "" + tail == tail && so + "" == so;
    } else {
      var value, rest := TrimCr(lines[0]), lines[1..];
      TrimmedHasNoLf(lines[0]);
      Regroup("data: " + value + "\n", DataFields(rest), tail);
      ParseOneField(value, DataFields(rest) + tail, so);
      ParseFields(rest, tail, so + (TrimCr(value) + "\n"));
      TrimmedTwiceCons(lines);
      Regroup(so, TrimCr(value) + "\n", Lines(Trimmed(Trimmed(rest))));
    }
  }

  lemma TrimmedTwiceCons(lines: seq<string>)
    requires lines != []
    ensures Lines(Trimmed(Trimmed(lines))) ==
      (TrimCr(TrimCr(lines[0])) + "\n") + Lines(Trimmed(Trimmed(lines[1..])))
  {
    assert lines == [lines[0]] + lines[1..];
    TrimmedCons(lines[0], lines[1..]);
    TrimmedCons(TrimCr(lines[0]), Trimmed(lines[1..]));
    LinesCons(TrimCr(TrimCr(lines[0])), Trimmed(Trimmed(lines[1..])));
  }

  lemma {:induction false} LinesAreJoined(lines: seq<string>)
    requires lines != []
    ensures Lines(lines) == Join(lines) + "\n"
  {
    if |lines| == 1 {
      LinesOne(lines[0]);
      assert lines == [lines[0]];
    } else {
      LinesAreJoined(lines[1..]);
      assert lines == [lines[0]] + lines[1..];
      LinesCons(lines[0], lines[1..]);
      Regroup(lines[0] + "\n", Join(lines[1..]), "\n");
    }
  }

  lemma ParseBlank(tail: string, so: string)
    requires so != ""
    ensures Parse(Parser("\n" + tail, "", "", so)) ==
      ([Event("", "", DropLast(so))] + Parse(Fed(FRESH, tail)).0, Parse(Fed(FRESH, tail)).1)
  {
    var p := Parser("\n" + tail, "", "", so);
    assert "" + ("\n" + tail) == "\n" + tail && FRESH.buf + tail == tail;
    NextIs(p, "", tail);
    ParseStep(p);
  }

  /** The decoder's parser gives one event for each chunk that is fed to it, however the chunks follow
      each other: the text without its line-end carriage returns, cleaned twice. */
  lemma FrameParses(data: string, tail: string)
    ensures
      var (events, end) := Parse(Fed(FRESH, tail));
      Parse(Fed(FRESH, Frame(data) + tail)) == ([Event("", "", DropLineCrs(DropLineCrs(data)))] + events, end)
  {
    var lines := SplitLf(data);
    var twice := Trimmed(Trimmed(lines));
    PartsHaveNoLf(data);
    Regroup(DataFields(lines), "\n", tail);
    assert FRESH.buf + (Frame(data) + tail) == DataFields(lines) + ("\n" + tail);
    ParseFields(lines, "\n" + tail, "");
    assert "" + Lines(twice) == Lines(twice);
    LinesAreJoined(twice);
    ParseBlank(tail, Lines(twice));
    DropTwice(data);
    assert DropLast(Join(twice) + "\n") == Join(twice);
  }

  /** All chunks in order. */
  function Frames(chunks: seq<string>): string
  {
    if chunks == [] then "" else Frame(chunks[0]) + Frames(chunks[1..])
  }

  function CleanedTwice(chunks: seq<string>): seq<Event>
  {
    if chunks == [] then [] else [Event("", "", DropLineCrs(DropLineCrs(chunks[0])))] + CleanedTwice(chunks[1..])
  }

  lemma {:induction false} FramesParse(chunks: seq<string>)
    ensures Parse(Fed(FRESH, Frames(chunks))) == (CleanedTwice(chunks), FRESH)
  {
    if chunks == [] {
      LineMachineIsValid();
      assert FRESH.buf + "" == "";
    } else {
      FramesParse(chunks[1..]);
      FrameParses(chunks[0], Frames(chunks[1..]));
    }
  }

  /** No line ends in two carriage returns. */
  predicate NoDoubleCr(data: string)
  {
    forall k :: 0 <= k < |SplitLf(data)| ==> TrimCr(TrimCr(SplitLf(data)[k])) == TrimCr(SplitLf(data)[k])
  }

  predicate AllTrimmed(lines: seq<string>)
  {
    forall k :: 0 <= k < |lines| ==> TrimCr(lines[k]) == lines[k]
  }

  lemma {:induction false} TrimmingShortens(lines: seq<string>)
    ensures |Join(Trimmed(lines))| <= |Join(lines)|
    ensures |Join(Trimmed(lines))| == |Join(lines)| <==> AllTrimmed(lines)
  {
    if |lines| == 1 {
      assert Trimmed(lines) == [TrimCr(lines[0])];
      assert TrimCr(lines[0]) != lines[0] ==> |TrimCr(lines[0])| < |lines[0]|;
    } else if lines != [] {
      TrimmingShortens(lines[1..]);
      assert lines == [lines[0]] + lines[1..];
      TrimmedCons(lines[0], lines[1..]);
      JoinCons(TrimCr(lines[0]), Trimmed(lines[1..]));
      AllTrimmedCons(lines);
    }
  }

  lemma AllTrimmedCons(lines: seq<string>)
    requires lines != []
    ensures AllTrimmed(lines) <==> TrimCr(lines[0]) == lines[0] && AllTrimmed(lines[1..])
  {
    assert forall k :: 0 < k < |lines| ==> lines[k] == lines[1..][k - 1];
  }

  /** So the decoder gets one event with the text, its line-end carriage returns dropped, exactly when
      no line ends in two of them. */
  lemma RoundTripThroughCore(data: string)
    ensures Parse(Fed(FRESH, Frame(data))) == ([Event("", "", DropLineCrs(data))], FRESH) <==> NoDoubleCr(data)
  {
    CleaningTwice(data);
    OneFrameParses(data);
  }

  lemma OneFrameParses(data: string)
    ensures Parse(Fed(FRESH, Frame(data))) == ([Event("", "", DropLineCrs(DropLineCrs(data)))], FRESH)
  {
    FrameParses(data, "");
    FramesParse([]);
    assert Frame(data) + "" == Frame(data) && Frames([]) == "";
    Nothing([Event("", "", DropLineCrs(DropLineCrs(data)))]);
  }

  lemma CleaningTwice(data: string)
    ensures DropLineCrs(DropLineCrs(data)) == DropLineCrs(data) <==> NoDoubleCr(data)
  {
    var once := Trimmed(SplitLf(data));
    DropTwice(data);
    JoinedLines(data);
    TrimmingShortens(once);
    OnceIsEnough(SplitLf(data));
  }

  lemma OnceIsEnough(lines: seq<string>)
    ensures AllTrimmed(Trimmed(lines)) <==>
      forall k :: 0 <= k < |lines| ==> TrimCr(TrimCr(lines[k])) == TrimCr(lines[k])
    ensures AllTrimmed(Trimmed(lines)) ==> Trimmed(Trimmed(lines)) == Trimmed(lines)
  {
    var once := Trimmed(lines);
    forall k | 0 <= k < |lines|
      ensures once[k] == TrimCr(lines[k])
    {
    }
  }
}
