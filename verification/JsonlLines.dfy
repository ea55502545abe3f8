/** The lines of a JSONL log whose appends may crash: in each file, and as the multi-file reader puts
    them together. */
module JsonlLines {
  import opened Text
  import opened FileSystem
  import opened JsonlLog
  import opened JsonlTail

  // ---------------------------------------------------------------------------------------------
  // Lines of a text
  // ---------------------------------------------------------------------------------------------

  /** The lines that end in `text`. */
  function Ended(text: string): seq<string>
  {
    var i := FirstIndex(text, '\n');
    if i == |text| then [] else [text[..i]] + Ended(text[i + 1..])
  }

  /** What follows the last line feed. */
  function Rest(text: string): string
  {
    var i := FirstIndex(text, '\n');
    if i == |text| then text else Rest(text[i + 1..])
  }

  lemma NoLineIn(text: string)
    requires '\n' !in text
    ensures Ended(text) == [] && Rest(text) == text
  {
    FirstIndexAfter(text, "", '\n');
    Nothing(text);
  }

  /** A line feed ends the line that was begun. */
  lemma OneLineIn(line: string, rest: string)
    requires '\n' !in line
    ensures Ended(line + ("\n" + rest)) == [line] + Ended(rest) && Rest(line + ("\n" + rest)) == Rest(rest)
  {
    var text := line + ("\n" + rest);
    FirstIndexSkips(line, '\n', rest);
    assert text[..|line|] == line && text[|line| + 1..] == rest;
  }

  /** The first line of a text that has one, and what follows it. */
  lemma FirstOfLines(text: string) returns (line: string, rest: string)
    requires FirstIndex(text, '\n') < |text|
    ensures text == line + ("\n" + rest) && '\n' !in line && |rest| < |text|
    ensures Ended(text) == [line] + Ended(rest) && Rest(text) == Rest(rest)
  {
    var i := FirstIndex(text, '\n');
    line, rest := text[..i], text[i + 1..];
    NoneBefore(text, '\n');
  }

  lemma NoFeed(text: string)
    requires FirstIndex(text, '\n') == |text|
    ensures '\n' !in text
  {
    NoneBefore(text, '\n');
    assert text[..|text|] == text;
  }

  lemma {:induction false} TextIsLines(text: string)
    ensures text == Lines(Ended(text)) + Rest(text) && '\n' !in Rest(text)
    ensures forall line :: line in Ended(text) ==> '\n' !in line
    decreases |text|
  {
    if FirstIndex(text, '\n') == |text| {
      NoFeed(text);
      Nothing(text);
    } else {
      var line, rest := FirstOfLines(text);
      TextIsLines(rest);
      LinesCons(line, Ended(rest));
      Regroup(line + "\n", Lines(Ended(rest)), Rest(rest));
      Regroup(line, "\n", rest);
    }
  }

  /** More text goes on with the line that was begun. */
  lemma {:induction false} EndedAppend(text: string, more: string)
    ensures Ended(text + more) == Ended(text) + Ended(Rest(text) + more)
    ensures Rest(text + more) == Rest(Rest(text) + more)
    decreases |text|
  {
    if FirstIndex(text, '\n') == |text| {
      Nothing(Ended(text + more));
    } else {
      var line, rest := FirstOfLines(text);
      EndedAppend(rest, more);
      OneLineIn(line, rest + more);
      Regroup(line, "\n" + rest, more);
      Regroup("\n", rest, more);
      Regroup([line], Ended(rest), Ended(Rest(rest) + more));
    }
  }

  lemma {:induction false} RestIffTerminated(text: string)
    ensures Rest(text) == "" <==> Terminated(text)
    decreases |text|
  {
    if FirstIndex(text, '\n') == |text| {
      NoFeed(text);
    } else {
      var line, rest := FirstOfLines(text);
      RestIffTerminated(rest);
    }
  }

  // ---------------------------------------------------------------------------------------------
  // Lines of the files
  // ---------------------------------------------------------------------------------------------

  /** The lines that end in each of the files 0, ..., BackupCount. */
  function FileLines(fs: Files, cfg: LogConfig, kind: LogKind): (parts: Parts)
    ensures |parts| == BackupCount(cfg) + 1
  {
    seq(BackupCount(cfg) + 1, (i: nat) => Ended(Content(fs, kind, i)))
  }

  /** What stands before a record on its line: nothing when the append rotates first, and otherwise what
      the active file has behind its last line feed. */
  function Tear(fs: Files, cfg: LogConfig, kind: LogKind, record: string): string
  {
    if Overflows(cfg, Content(fs, kind, 0), record) then "" else Rest(Content(fs, kind, 0))
  }

  /** The lines that end in what a call writes. */
  function LinesOfCall(fs: Files, cfg: LogConfig, kind: LogKind, c: Call): seq<string>
  {
    if Rejects(cfg, c.record) || c.outcome.Rotating? then []
    else Ended(Tear(fs, cfg, kind, c.record) + Piece(c.record, c.outcome.bytes))
  }

  function LinesWritten(fs: Files, cfg: LogConfig, kind: LogKind, calls: seq<Call>): seq<string>
  {
    if calls == [] then []
    else
      var before, last := calls[..|calls| - 1], calls[|calls| - 1];
      LinesWritten(fs, cfg, kind, before) + LinesOfCall(After(fs, cfg, kind, before), cfg, kind, last)
  }

  /** A call adds its lines at the end and, when it rotates, drops exactly those of the oldest file. */
  lemma CallAddsItsLines(fs: Files, cfg: LogConfig, kind: LogKind, record: string, o: Outcome)
    ensures
      var lines := FileLines(fs, cfg, kind);
      Flat(lines) + LinesOfCall(fs, cfg, kind, Call(record, o)) ==
        (if Rotates(cfg, Content(fs, kind, 0), record, o) then lines[|lines| - 1] else [])
        + Flat(FileLines(AfterCall(fs, cfg, kind, record, o), cfg, kind))
  {
    var lines := FileLines(fs, cfg, kind);
    Nothing(Flat(lines));
    FlatLast(lines);
    if !Rejects(cfg, record) {
      match o
      case Rotating(lo) =>
        if Rotates(cfg, Content(fs, kind, 0), record, o) {
          ShiftedLines(fs, cfg, kind, lo);
          HoleIsNothing(lines, lo);
        }
      case Written(n) =>
        RoomLines(fs, cfg, kind, record);
        WrittenLines(fs, cfg, kind, record, n);
        HoleIsNothing(lines, 0);
        MoreInPart(FileLines(Room(fs, cfg, kind, record), cfg, kind), LinesOfCall(fs, cfg, kind, Call(record, o)));
        Regroup(lines[|lines| - 1], Flat(lines[..|lines| - 1]), LinesOfCall(fs, cfg, kind, Call(record, o)));
    }
  }

  lemma ShiftedLines(fs: Files, cfg: LogConfig, kind: LogKind, lo: nat)
    requires lo <= BackupCount(cfg)
    ensures FileLines(Shifted(fs, kind, lo, BackupCount(cfg)), cfg, kind) == WithHole(FileLines(fs, cfg, kind), lo)
  {
    var lines := FileLines(fs, cfg, kind);
    forall i | 0 <= i < |lines|
      ensures Ended(Content(Shifted(fs, kind, lo, BackupCount(cfg)), kind, i)) == WithHole(lines, lo)[i]
    {
      ShiftMoves(fs, kind, lo, BackupCount(cfg), i);
      HoleAt(lines, lo, i);
    }
  }

  lemma RoomLines(fs: Files, cfg: LogConfig, kind: LogKind, record: string)
    ensures FileLines(Room(fs, cfg, kind, record), cfg, kind) ==
      if Overflows(cfg, Content(fs, kind, 0), record) then WithHole(FileLines(fs, cfg, kind), 0)
      else FileLines(fs, cfg, kind)
    ensures Rest(Content(Room(fs, cfg, kind, record), kind, 0)) == Tear(fs, cfg, kind, record)
  {
    if Overflows(cfg, Content(fs, kind, 0), record) {
      if cfg.maxFiles > 1 {
        ShiftedLines(fs, cfg, kind, 0);
        ShiftMoves(fs, kind, 0, BackupCount(cfg), 0);
      } else {
        HoleAt(FileLines(fs, cfg, kind), 0, 0);
      }
    }
  }

  lemma WrittenLines(fs: Files, cfg: LogConfig, kind: LogKind, record: string, n: nat)
    requires !Rejects(cfg, record)
    ensures
      var lines := FileLines(Room(fs, cfg, kind, record), cfg, kind);
      FileLines(AfterCall(fs, cfg, kind, record, Written(n)), cfg, kind) ==
        lines[0 := lines[0] + LinesOfCall(fs, cfg, kind, Call(record, Written(n)))]
  {
    RoomLines(fs, cfg, kind, record);
    EndedAppend(Content(Room(fs, cfg, kind, record), kind, 0), Piece(record, n));
  }

  lemma MoreInPart(parts: Parts, more: seq<string>)
    requires parts != []
    ensures Flat(parts) + more == Flat(parts[0 := parts[0] + more])
  {
    assert parts[0 := parts[0] + more][1..] == parts[1..];
    Regroup(Flat(parts[1..]), parts[0], more);
  }

  /** From any directory, after any run of calls of which any may crash: the lines of the files, oldest
      backup to active file, are a suffix of those at the start and those that the calls wrote. */
  lemma {:induction false} CrashedLog(fs: Files, cfg: LogConfig, kind: LogKind, calls: seq<Call>)
    ensures IsSuffix(Flat(FileLines(After(fs, cfg, kind, calls), cfg, kind)),
                     Flat(FileLines(fs, cfg, kind)) + LinesWritten(fs, cfg, kind, calls))
  {
    Nothing(Flat(FileLines(fs, cfg, kind)));
    if calls != [] {
      var before, last := calls[..|calls| - 1], calls[|calls| - 1];
      var mid := After(fs, cfg, kind, before);
      CrashedLog(fs, cfg, kind, before);
      CallKeepsNewestLines(mid, cfg, kind, last, Flat(FileLines(fs, cfg, kind)), LinesWritten(fs, cfg, kind, before));
    }
  }

  lemma CallKeepsNewestLines(fs: Files, cfg: LogConfig, kind: LogKind, c: Call, start: seq<string>, all: seq<string>)
    requires IsSuffix(Flat(FileLines(fs, cfg, kind)), start + all)
    ensures IsSuffix(Flat(FileLines(AfterCall(fs, cfg, kind, c.record, c.outcome), cfg, kind)),
                     start + (all + LinesOfCall(fs, cfg, kind, c)))
  {
    var lines, next := FileLines(fs, cfg, kind), FileLines(AfterCall(fs, cfg, kind, c.record, c.outcome), cfg, kind);
    CallAddsItsLines(fs, cfg, kind, c.record, c.outcome);
    SuffixGrows(Flat(next), Flat(lines), LinesOfCall(fs, cfg, kind, c), start, all,
      if Rotates(cfg, Content(fs, kind, 0), c.record, c.outcome) then lines[|lines| - 1] else []);
  }

  /** Each file is its lines, and what crashes left behind the last of them. */
  lemma FileIsLines(fs: Files, kind: LogKind, i: nat)
    ensures Content(fs, kind, i) == Lines(Ended(Content(fs, kind, i))) + Rest(Content(fs, kind, i))
    ensures '\n' !in Rest(Content(fs, kind, i))
  {
    TextIsLines(Content(fs, kind, i));
  }

  // ---------------------------------------------------------------------------------------------
  // What a crash costs
  // ---------------------------------------------------------------------------------------------

  predicate Finishes(cfg: LogConfig, c: Call)
  {
    !Rejects(cfg, c.record) && c.outcome.Written? && c.outcome.bytes > |c.record|
  }

  /** The accepted records of the calls that finished. */
  function FinishedRecords(cfg: LogConfig, calls: seq<Call>): seq<string>
  {
    if calls == [] then []
    else
      var before, last := calls[..|calls| - 1], calls[|calls| - 1];
      FinishedRecords(cfg, before) + if Finishes(cfg, last) then [last.record] else []
  }

  predicate NoLineFeeds(calls: seq<Call>)
  {
    forall k :: 0 <= k < |calls| ==> '\n' !in calls[k].record
  }

  /** A whole piece ends the line that was begun, and any other goes on with it. */
  lemma LineOfPiece(tear: string, record: string, n: nat)
    requires '\n' !in tear && '\n' !in record
    ensures Ended(tear + Piece(record, n)) == if n > |record| then [tear + record] else []
    ensures Rest(tear + Piece(record, n)) == if n > |record| then "" else tear + record[..n]
  {
    if n > |record| {
      assert Piece(record, n) == record + "\n";
      Regroup(tear, record, "\n");
      SingleLine(tear + record);
    } else {
      assert Piece(record, n) == record[..n];
      NoLineIn(tear + Piece(record, n));
    }
  }

  /** A call ends one line, that of its record, when it finishes, and none otherwise. */
  lemma LineOfCall(fs: Files, cfg: LogConfig, kind: LogKind, c: Call)
    requires '\n' !in c.record
    ensures LinesOfCall(fs, cfg, kind, c) ==
      if Finishes(cfg, c) then [Tear(fs, cfg, kind, c.record) + c.record] else []
  {
    if !Rejects(cfg, c.record) && c.outcome.Written? {
      TextIsLines(Content(fs, kind, 0));
      LineOfPiece(Tear(fs, cfg, kind, c.record), c.record, c.outcome.bytes);
    }
  }

  /** What a call leaves behind the last line feed of the active file: a call that finishes, or that moves
      the active file away, leaves nothing; one that crashes in its record leaves its bytes behind what
      was there, unless it rotated first. */
  lemma WhatACallLeaves(fs: Files, cfg: LogConfig, kind: LogKind, c: Call)
    requires '\n' !in c.record
    ensures Rest(Content(AfterCall(fs, cfg, kind, c.record, c.outcome), kind, 0)) ==
      if Rejects(cfg, c.record) then Rest(Content(fs, kind, 0))
      else match c.outcome
        case Rotating(lo) =>
          if lo == 0 && Rotates(cfg, Content(fs, kind, 0), c.record, c.outcome) then "" else Rest(Content(fs, kind, 0))
        case Written(n) =>
          if n > |c.record| then "" else Tear(fs, cfg, kind, c.record) + c.record[..n]
  {
    if !Rejects(cfg, c.record) {
      match c.outcome
      case Rotating(lo) =>
        if Rotates(cfg, Content(fs, kind, 0), c.record, c.outcome) {
          ShiftMoves(fs, kind, lo, BackupCount(cfg), 0);
        }
      case Written(n) =>
        WrittenLeaves(fs, cfg, kind, c.record, n);
        TextIsLines(Content(fs, kind, 0));
        LineOfPiece(Tear(fs, cfg, kind, c.record), c.record, n);
    }
  }

  lemma WrittenLeaves(fs: Files, cfg: LogConfig, kind: LogKind, record: string, n: nat)
    requires !Rejects(cfg, record)
    ensures Rest(Content(AfterCall(fs, cfg, kind, record, Written(n)), kind, 0)) ==
      Rest(Tear(fs, cfg, kind, record) + Piece(record, n))
  {
    RoomLines(fs, cfg, kind, record);
    EndedAppend(Content(Room(fs, cfg, kind, record), kind, 0), Piece(record, n));
  }

  lemma {:induction false} OneLinePerFinishedCall(fs: Files, cfg: LogConfig, kind: LogKind, calls: seq<Call>)
    requires NoLineFeeds(calls)
    ensures |LinesWritten(fs, cfg, kind, calls)| == |FinishedRecords(cfg, calls)|
  {
    if calls != [] {
      OneLinePerFinishedCall(fs, cfg, kind, calls[..|calls| - 1]);
      LineOfCall(After(fs, cfg, kind, calls[..|calls| - 1]), cfg, kind, calls[|calls| - 1]);
    }
  }

  /** What is written stays in its place. */
  lemma {:induction false} WrittenBefore(fs: Files, cfg: LogConfig, kind: LogKind, calls: seq<Call>, k: nat)
    requires k <= |calls|
    ensures LinesWritten(fs, cfg, kind, calls[..k]) <= LinesWritten(fs, cfg, kind, calls)
    ensures FinishedRecords(cfg, calls[..k]) <= FinishedRecords(cfg, calls)
  {
    if k == |calls| {
      assert calls[..k] == calls;
    } else {
      var before := calls[..|calls| - 1];
      assert before[..k] == calls[..k];
      WrittenBefore(fs, cfg, kind, before, k);
    }
  }

  /** The calls that finish write one line each, in their order, and the others none.  The line is the
      call's record behind its tear, and so the record alone exactly when the append rotates first, or
      finds the active file empty or ending in a line feed. */
  lemma CrashCostsTheNextRecord(fs: Files, cfg: LogConfig, kind: LogKind, calls: seq<Call>, k: nat)
    requires NoLineFeeds(calls) && k < |calls| && Finishes(cfg, calls[k])
    ensures |LinesWritten(fs, cfg, kind, calls)| == |FinishedRecords(cfg, calls)|
    ensures
      var t, record, j := After(fs, cfg, kind, calls[..k]), calls[k].record, |FinishedRecords(cfg, calls[..k])|;
      && j < |FinishedRecords(cfg, calls)| && FinishedRecords(cfg, calls)[j] == record
      && LinesWritten(fs, cfg, kind, calls)[j] == Tear(t, cfg, kind, record) + record
      && (LinesWritten(fs, cfg, kind, calls)[j] == record <==>
            Overflows(cfg, Content(t, kind, 0), record) || Terminated(Content(t, kind, 0)))
  {
    var t, c := After(fs, cfg, kind, calls[..k]), calls[k];
    var before, upto := calls[..k], calls[..k + 1];
    assert upto[..k] == before;
    OneLinePerFinishedCall(fs, cfg, kind, calls);
    OneLinePerFinishedCall(fs, cfg, kind, before);
    LineOfCall(t, cfg, kind, c);
    WrittenBefore(fs, cfg, kind, calls, k + 1);
    assert LinesWritten(fs, cfg, kind, upto) == LinesWritten(fs, cfg, kind, before) + [Tear(t, cfg, kind, c.record) + c.record];
    assert FinishedRecords(cfg, upto) == FinishedRecords(cfg, before) + [c.record];
    RestIffTerminated(Content(t, kind, 0));
    NothingBefore(Tear(t, cfg, kind, c.record), c.record);
  }

  lemma NothingBefore(tear: string, record: string)
    ensures tear + record == record <==> tear == ""
  {
    assert |tear + record| == |tear| + |record|;
    Nothing(record);
  }

  const CRASHES: seq<Call> := [Call("ab", Written(2)), Call("c", Written(2))]

  /** Two calls of which the first crashes after two bytes.  Without a size limit the second record shares
      its line. */
  lemma Fused()
    ensures Ended(Content(After(map[], LogConfig(0, 2, 0), Audit, CRASHES), Audit, 0)) == ["abc"]
  {
    FusedDirectory();
    SingleLine("abc");
    assert "abc" + "\n" == "abc\n";
  }

  /** With a limit of three bytes the second record has a line, and a file, of its own. */
  lemma Apart()
    ensures Ended(Content(After(map[], LogConfig(3, 2, 0), Audit, CRASHES), Audit, 0)) == ["c"]
  {
    TornDirectory();
    SingleLine("c");
    assert "c" + "\n" == "c\n";
  }

  lemma SingleLine(line: string)
    requires '\n' !in line
    ensures Ended(line + "\n") == [line] && Rest(line + "\n") == ""
  {
    Nothing("\n");
    OneLineIn(line, "");
    NoLineIn("");
  }

  lemma FusedDirectory()
    ensures After(map[], LogConfig(0, 2, 0), Audit, CRASHES) == map[Log(Audit, 0) := "abc\n"]
  {
    var first, second := Call("ab", Written(2)), Call("c", Written(2));
    var empty: Files, torn: Files := map[], map[Log(Audit, 0) := "ab"];
    assert [first, second][..1] == [first] && [first][..0] == [];
    assert Piece("ab", 2) == "ab" && Piece("c", 2) == "c\n" && "" + "ab" == "ab" && "ab" + "c\n" == "abc\n";
    assert AfterCall(empty, LogConfig(0, 2, 0), Audit, "ab", Written(2)) == torn;
    assert AfterCall(torn, LogConfig(0, 2, 0), Audit, "c", Written(2)) == map[Log(Audit, 0) := "abc\n"];
  }

  // ---------------------------------------------------------------------------------------------
  // What the multi-file reader makes of it
  // ---------------------------------------------------------------------------------------------

  /** The lines a chunk gives: its own, and its unfinished one when newer text follows. */
  function LinesOfChunk(chunk: string, newer: bool): seq<string>
  {
    Ended(chunk) + if newer && !Terminated(chunk) then [Rest(chunk)] else []
  }

  /** The same for the chunks of ever older files. */
  function LinesOfChunks(chunks: seq<string>, newer: bool): Parts
  {
    if chunks == [] then []
    else [LinesOfChunk(chunks[0], newer)] + LinesOfChunks(chunks[1..], newer || chunks[0] != "")
  }

  lemma PrependedLines(chunk: string, newer: string)
    ensures Ended(Prepend(chunk, newer)) == LinesOfChunk(chunk, newer != "") + Ended(newer)
    ensures Rest(Prepend(chunk, newer)) == if newer != "" then Rest(newer) else Rest(chunk)
  {
    RestIffTerminated(chunk);
    NoLineIn("");
    Nothing(Ended(newer));
    if chunk != "" && newer != "" && !Terminated(chunk) {
      TextIsLines(chunk);
      EndedAppend(chunk, "\n" + newer);
      Regroup(chunk, "\n", newer);
      OneLineIn(Rest(chunk), newer);
      Regroup(Ended(chunk), [Rest(chunk)], Ended(newer));
    } else if chunk != "" {
      EndedAppend(chunk, newer);
      if newer == "" {
        Nothing(chunk);
        Nothing(Ended(chunk));
      } else {
        Nothing(newer);
        Nothing(Ended(chunk));
      }
    }
  }

  lemma {:induction false} AssembledLines(chunks: seq<string>, newer: string)
    ensures Ended(Assemble(chunks, newer)) == Flat(LinesOfChunks(chunks, newer != "")) + Ended(newer)
  {
    Nothing(Ended(newer));
    if chunks != [] {
      var first, older := LinesOfChunk(chunks[0], newer != ""), LinesOfChunks(chunks[1..], newer != "" || chunks[0] != "");
      PrependedLines(chunks[0], newer);
      AssembledLines(chunks[1..], Prepend(chunks[0], newer));
      FlatCons(first, older);
      Regroup(Flat(older), first, Ended(newer));
    }
  }

  lemma FlatCons(first: seq<string>, rest: Parts)
    ensures Flat([first] + rest) == Flat(rest) + first
  {
    assert ([first] + rest)[1..] == rest;
  }

  /** `tail` has the newest lines of `text`, and the same unfinished one unless it is empty. */
  predicate NewestLines(tail: string, text: string)
  {
    IsSuffix(Ended(tail), Ended(text)) && (tail != "" ==> Rest(tail) == Rest(text))
  }

  lemma TailLines(content: string, maxBytes: nat)
    ensures NewestLines(TailOf(content, maxBytes), content)
  {
    TailCases(content, maxBytes);
    if |content| > maxBytes {
      var cut := |content| - maxBytes;
      assert content == content[..cut] + content[cut..];
      AfterFirstFeed(content[..cut], content[cut..]);
    }
  }

  lemma AfterFirstFeed(open: string, buf: string)
    ensures NewestLines(AfterLineFeed(buf), open + buf)
  {
    if FirstIndex(buf, '\n') == |buf| {
      NoLineIn("");
    } else {
      var line, tail := FirstOfLines(buf);
      FirstIndexSkips(line, '\n', tail);
      assert AfterLineFeed(buf) == tail;
      BehindFirstFeed(open, line, tail);
    }
  }

  lemma BehindFirstFeed(open: string, line: string, tail: string)
    requires '\n' !in line
    ensures Ended(open + (line + ("\n" + tail))) == Ended(open) + ([Rest(open) + line] + Ended(tail))
    ensures Rest(open + (line + ("\n" + tail))) == Rest(tail)
    ensures IsSuffix(Ended(tail), Ended(open + (line + ("\n" + tail))))
  {
    EndedAppend(open, line + ("\n" + tail));
    Regroup(Rest(open), line, "\n" + tail);
    TextIsLines(open);
    OneLineIn(Rest(open) + line, tail);
    Regroup(Ended(open), [Rest(open) + line], Ended(tail));
  }

  lemma {:induction false} ChunkIsTail(tails: Tails, i: nat, want: nat, budget: nat, j: nat) returns (left: nat)
    requires WithinBudget(tails) && j < |Chunks(tails, i, want, budget)|
    ensures Chunks(tails, i, want, budget)[j] == tails.tail(i + j, left)
    decreases want - i
  {
    if j == 0 {
      left := budget;
    } else {
      left := ChunkIsTail(tails, i + 1, want, budget - |tails.tail(i, budget)|, j - 1);
    }
  }

  lemma {:induction false} ChunksFit(tails: Tails, i: nat, want: nat, budget: nat)
    requires WithinBudget(tails)
    ensures |Concat(Chunks(tails, i, want, budget))| <= budget
    ensures i <= want ==> |Chunks(tails, i, want, budget)| <= want - i
    decreases want - i
  {
    if i < want && budget > 0 {
      var chunk := tails.tail(i, budget);
      var rest := Chunks(tails, i + 1, want, budget - |chunk|);
      ChunksFit(tails, i + 1, want, budget - |chunk|);
      assert ([chunk] + rest)[1..] == rest;
    }
  }

  lemma ChunkHasNewestLines(fs: Files, kind: LogKind, tails: Tails, want: nat, budget: nat, i: nat)
    requires Serves(tails, fs, kind) && i < |Chunks(tails, 0, want, budget)|
    ensures NewestLines(Chunks(tails, 0, want, budget)[i], Content(fs, kind, i))
  {
    var left := ChunkIsTail(tails, 0, want, budget, i);
    ServedTail(fs, kind, tails, i, left);
    TailIsNewest(Chunks(tails, 0, want, budget)[i], Content(fs, kind, i), left);
  }

  lemma TailIsNewest(chunk: string, content: string, budget: nat)
    requires chunk == TailOf(content, budget)
    ensures NewestLines(chunk, content)
  {
    TailLines(content, budget);
  }

  lemma ServedTail(fs: Files, kind: LogKind, tails: Tails, i: nat, budget: nat)
    requires Serves(tails, fs, kind)
    ensures tails.tail(i, budget) == TailOf(Content(fs, kind, i), budget)
  {
  }

  /** From any directory, so also after crashes: the multi-file reader gives, of each file that it reads,
      the newest lines, and what a crash left behind the last of them as a line of its own when newer
      text follows. */
  lemma ReaderKeepsLines(fs: Files, kind: LogKind, maxBytes: nat, maxFiles: nat)
    ensures
      var chunks := Chunks(TailsOf(fs, kind), 0, WantFiles(maxFiles), maxBytes);
      && Ended(ReadTails(fs, kind, maxBytes, maxFiles)) == Flat(LinesOfChunks(chunks, false))
      && |Concat(chunks)| <= maxBytes && |chunks| <= WantFiles(maxFiles)
      && forall i :: 0 <= i < |chunks| ==> NewestLines(chunks[i], Content(fs, kind, i))
  {
    var want, tails := WantFiles(maxFiles), TailsOf(fs, kind);
    TailsFit(fs, kind);
    TailsServe(fs, kind);
    var chunks := Chunks(tails, 0, want, maxBytes);
    LinesRead(tails, want, maxBytes);
    ChunksFit(tails, 0, want, maxBytes);
    forall i | 0 <= i < |chunks|
      ensures NewestLines(chunks[i], Content(fs, kind, i))
    {
      ChunkHasNewestLines(fs, kind, tails, want, maxBytes, i);
    }
  }

  lemma LinesRead(tails: Tails, want: nat, budget: nat)
    requires WithinBudget(tails) && tails.join == Prepend
    ensures Ended(Read(tails, 0, want, budget, "")) == Flat(LinesOfChunks(Chunks(tails, 0, want, budget), false))
  {
    var chunks := Chunks(tails, 0, want, budget);
    ReadAssembles(tails, 0, want, budget, "");
    AssembledLines(chunks, "");
    NoLineIn("");
    Nothing(Flat(LinesOfChunks(chunks, false)));
  }
}
