/** Splitting a memory file into index chunks. */
module MarkdownChunker {
  import opened Text

  const BEGIN_MARKER := "<!-- AGENT_MEMORY_V1_BEGIN -->"
  const END_MARKER := "<!-- AGENT_MEMORY_V1_END -->"
  const MAX_CHUNKS := 1000

  datatype Chunk = Chunk(text: string, startLine: nat)

  // ---------------------------------------------------------------------------------------------
  // Lines
  // ---------------------------------------------------------------------------------------------

  function SplitLines(content: string): seq<string>
    decreases |content|
  {
    if content == "" then [] else [FirstLine(content)] + SplitLines(AfterLine(content))
  }

  /** The first `maxLines` lines, and the first one in any case. */
  function LeadingLines(content: string, maxLines: int): seq<string>
  {
    var lines := SplitLines(content);
    if |lines| <= Max(1, maxLines) then lines else lines[..Max(1, maxLines)]
  }

  method ReadLines(content: string, maxLines: int) returns (lines: seq<string>)
    ensures lines == LeadingLines(content, maxLines)
  {
    lines := [];
    var rest := content;
    ghost var all := SplitLines(content);
    while rest != "" && (lines == [] || |lines| < maxLines)
      invariant Taken(all, lines, rest)
      invariant lines == [] || |lines| <= maxLines || |lines| == 1
      decreases |rest|
    {
      SplitStep(all, lines, rest);
      lines, rest := lines + [FirstLine(rest)], AfterLine(rest);
    }
    LinesTaken(all, lines, rest, maxLines);
  }

  /** `lines` have been read, `rest` has not. */
  ghost predicate Taken(all: seq<string>, lines: seq<string>, rest: string)
  {
    |lines| <= |all| && lines == all[..|lines|] && SplitLines(rest) == all[|lines|..]
  }

  lemma LinesTaken(all: seq<string>, lines: seq<string>, rest: string, maxLines: int)
    requires Taken(all, lines, rest) && (lines == [] || |lines| <= maxLines || |lines| == 1)
    requires rest == "" || (lines != [] && |lines| >= maxLines)
    ensures lines == if |all| <= Max(1, maxLines) then all else all[..Max(1, maxLines)]
  {
    if rest == "" {
      assert all[|lines|..] == [];
    }
  }

  lemma SplitStep(all: seq<string>, lines: seq<string>, rest: string)
    requires Taken(all, lines, rest) && rest != ""
    ensures Taken(all, lines + [FirstLine(rest)], AfterLine(rest))
  {
    var n := |lines|;
    assert all[n] == all[n..][0] == FirstLine(rest);
    assert all[n + 1..] == all[n..][1..];
  }

  // ---------------------------------------------------------------------------------------------
  // The scan
  // ---------------------------------------------------------------------------------------------

  predicate Opens(line: string) { Contains(line, BEGIN_MARKER) }

  predicate Closes(line: string) { Contains(line, END_MARKER) }

  /** A heading or a blank line starts a new chunk. */
  predicate Breaks(line: string)
  {
    (line != "" && line[0] == '#') || Trim(line) == ""
  }

  /** The lines of one text handed to flush, as indices from 0. */
  type Group = seq<nat>

  predicate Indices(lines: seq<string>, g: Group)
  {
    forall k :: 0 <= k < |g| ==> g[k] < |lines|
  }

  function GroupText(lines: seq<string>, g: Group): string
    requires Indices(lines, g)
  {
    if g == [] then "" else GroupText(lines, g[..|g| - 1]) + lines[g[|g| - 1]] + "\n"
  }

  /** `done` are the groups flushed so far, `cur` the one being collected. */
  datatype State = State(skip: bool, cur: Group, done: seq<Group>)

  const INIT := State(false, [], [])

  predicate InRange(n: nat, st: State)
  {
    (forall k :: 0 <= k < |st.cur| ==> st.cur[k] < n)
    && forall j, k :: 0 <= j < |st.done| && 0 <= k < |st.done[j]| ==> st.done[j][k] < n
  }

  /** The text collected so far must be flushed before line i joins it. */
  predicate MustFlush(lines: seq<string>, cur: Group, i: nat, maxChars: int)
    requires Indices(lines, cur) && i < |lines|
  {
    (cur != [] && Breaks(lines[i])) || |GroupText(lines, cur)| + |lines[i]| + 1 >= maxChars
  }

  function Flushed(st: State): State
  {
    if st.cur == [] then st else State(st.skip, [], st.done + [st.cur])
  }

  function Step(lines: seq<string>, st: State, i: nat, maxChars: int): (next: State)
    requires i < |lines| && InRange(i, st)
    ensures InRange(i + 1, next)
  {
    if Opens(lines[i]) then st.(skip := true)
    else if st.skip then st.(skip := !Closes(lines[i]))
    else
      var room := if MustFlush(lines, st.cur, i, maxChars) then Flushed(st) else st;
      room.(cur := room.cur + [i])
  }

  function Scan(lines: seq<string>, n: nat, maxChars: int): (st: State)
    requires n <= |lines|
    ensures InRange(n, st)
  {
    if n == 0 then INIT else Step(lines, Scan(lines, n - 1, maxChars), n - 1, maxChars)
  }

  /** The texts handed to flush, in order. */
  function Groups(lines: seq<string>, maxChars: int): seq<Group>
  {
    Flushed(Scan(lines, |lines|, maxChars)).done
  }

  /** What flush makes of one text: nothing when it is blank. */
  function Emit(lines: seq<string>, g: Group): seq<Chunk>
    requires Indices(lines, g) && g != []
  {
    var t := Trim(GroupText(lines, g));
    if t == "" then [] else [Chunk(t, g[0] + 1)]
  }

  predicate GoodGroups(lines: seq<string>, gs: seq<Group>)
  {
    forall j :: 0 <= j < |gs| ==> gs[j] != [] && Indices(lines, gs[j])
  }

  function EmitAll(lines: seq<string>, gs: seq<Group>): seq<Chunk>
    requires GoodGroups(lines, gs)
  {
    if gs == [] then [] else EmitAll(lines, gs[..|gs| - 1]) + Emit(lines, gs[|gs| - 1])
  }

  lemma {:induction false} ScanGroupsGood(lines: seq<string>, n: nat, maxChars: int)
    requires n <= |lines|
    ensures GoodGroups(lines, Flushed(Scan(lines, n, maxChars)).done)
  {
    if n > 0 {
      ScanGroupsGood(lines, n - 1, maxChars);
      var st := Scan(lines, n, maxChars);
      assert InRange(n, st);
      ScanDoneGood(lines, n, maxChars);
    }
  }

  lemma {:induction false} ScanDoneGood(lines: seq<string>, n: nat, maxChars: int)
    requires n <= |lines|
    ensures GoodGroups(lines, Scan(lines, n, maxChars).done)
  {
    if n > 0 {
      ScanDoneGood(lines, n - 1, maxChars);
      StepKeepsGood(lines, Scan(lines, n - 1, maxChars), n - 1, maxChars);
    }
  }

  lemma StepKeepsGood(lines: seq<string>, st: State, i: nat, maxChars: int)
    requires i < |lines| && InRange(i, st) && GoodGroups(lines, st.done)
    ensures GoodGroups(lines, Step(lines, st, i, maxChars).done)
  {
  }

  function ChunksOf(lines: seq<string>, maxChars: int): (chunks: seq<Chunk>)
    ensures |chunks| <= MAX_CHUNKS
  {
    ScanGroupsGood(lines, |lines|, maxChars);
    var all := EmitAll(lines, Groups(lines, maxChars));
    if |all| > MAX_CHUNKS then all[..MAX_CHUNKS] else all
  }

  /** The chunks of a file's content. */
  function ChunkMarkdown(content: string, maxLines: int, maxChars: int): seq<Chunk>
  {
    ChunksOf(LeadingLines(content, maxLines), maxChars)
  }

  lemma EmitOneMore(lines: seq<string>, gs: seq<Group>, g: Group)
    requires GoodGroups(lines, gs) && g != [] && Indices(lines, g)
    ensures GoodGroups(lines, gs + [g]) && EmitAll(lines, gs + [g]) == EmitAll(lines, gs) + Emit(lines, g)
  {
    assert (gs + [g])[..|gs|] == gs;
  }

  /** The flush of the scan: the collected text, trimmed, unless it is blank. */
  method Flush(lines: seq<string>, ghost st: State, text: string, startLine: nat, out: seq<Chunk>)
    returns (out': seq<Chunk>)
    requires GoodGroups(lines, st.done) && Indices(lines, st.cur)
    requires text == GroupText(lines, st.cur) && (st.cur != [] ==> startLine == st.cur[0] + 1)
    requires out == EmitAll(lines, st.done)
    ensures GoodGroups(lines, Flushed(st).done) && out' == EmitAll(lines, Flushed(st).done)
  {
    if st.cur != [] {
      EmitOneMore(lines, st.done, st.cur);
    }
    var t := Trim(text);
    if t != "" {
      out' := out + [Chunk(t, startLine)];
    } else {
      out' := out;
    }
  }

  /** The variables of the loop hold the state of the scan. */
  predicate Collects(lines: seq<string>, st: State, skip: bool, text: string, startLine: nat, out: seq<Chunk>)
  {
    && Indices(lines, st.cur) && GoodGroups(lines, st.done)
    && skip == st.skip && text == GroupText(lines, st.cur) && (st.cur != [] ==> startLine == st.cur[0] + 1)
    && out == EmitAll(lines, st.done)
  }

  lemma EmptyText(lines: seq<string>, cur: Group)
    requires Indices(lines, cur)
    ensures GroupText(lines, cur) == "" <==> cur == []
  {
  }

  lemma TextOfOneMore(lines: seq<string>, cur: Group, i: nat)
    requires Indices(lines, cur) && i < |lines|
    ensures GroupText(lines, cur + [i]) == GroupText(lines, cur) + lines[i] + "\n"
  {
    assert (cur + [i])[..|cur|] == cur;
  }

  lemma JoinsGroup(lines: seq<string>, st: State, i: nat, maxChars: int, text: string, startLine: nat, out: seq<Chunk>)
    requires i < |lines| && InRange(i, st) && !st.skip && !Opens(lines[i]) && !MustFlush(lines, st.cur, i, maxChars)
    requires Collects(lines, st, false, text, startLine, out) && (st.cur == [] ==> startLine == i + 1)
    ensures Collects(lines, Step(lines, st, i, maxChars), false, text + lines[i] + "\n", startLine, out)
  {
    TextOfOneMore(lines, st.cur, i);
  }

  lemma StartsGroup(lines: seq<string>, st: State, i: nat, maxChars: int, out: seq<Chunk>)
    requires i < |lines| && InRange(i, st) && !st.skip && !Opens(lines[i]) && MustFlush(lines, st.cur, i, maxChars)
    requires GoodGroups(lines, Flushed(st).done) && out == EmitAll(lines, Flushed(st).done)
    ensures Collects(lines, Step(lines, st, i, maxChars), false, "" + lines[i] + "\n", i + 1, out)
  {
    StepFlushes(lines, st, i, maxChars);
    OneLineText(lines, i);
  }

  lemma StepFlushes(lines: seq<string>, st: State, i: nat, maxChars: int)
    requires i < |lines| && InRange(i, st) && !st.skip && !Opens(lines[i]) && MustFlush(lines, st.cur, i, maxChars)
    ensures Step(lines, st, i, maxChars) == State(false, [i], Flushed(st).done)
  {
    assert Flushed(st).cur + [i] == [i];
  }

  lemma OneLineText(lines: seq<string>, i: nat)
    requires i < |lines|
    ensures GroupText(lines, [i]) == "" + lines[i] + "\n"
  {
    assert [i][..0] == [];
  }

  /** One line outside the blocks: it joins the collected text, which is flushed first where it must. */
  method TakeLine(lines: seq<string>, ghost st: State, i: nat, maxChars: int, text: string, startLine: nat, out: seq<Chunk>)
    returns (text': string, startLine': nat, out': seq<Chunk>)
    requires i < |lines| && InRange(i, st) && !st.skip && !Opens(lines[i])
    requires Collects(lines, st, false, text, startLine, out)
    ensures Collects(lines, Step(lines, st, i, maxChars), false, text', startLine', out')
  {
    var line := lines[i];
    text', startLine', out' := text, startLine, out;
    EmptyText(lines, st.cur);
    if text == "" {
      startLine' := i + 1;
    }
    if (text != "" && Breaks(line)) || |text| + |line| + 1 >= maxChars {
      out' := Flush(lines, st, text, startLine', out);
      text' := "";
      startLine' := i + 1;
      StartsGroup(lines, st, i, maxChars, out');
    } else {
      JoinsGroup(lines, st, i, maxChars, text, startLine', out);
    }
    text' := text' + line + "\n";
  }

  method ChunkMarkdownForIndex(content: string, maxLines: int, maxChars: int) returns (out: seq<Chunk>)
    ensures out == ChunkMarkdown(content, maxLines, maxChars)
  {
    var lines := ReadLines(content, maxLines);
    out := [];
    var skip, text, startLine := false, "", 1;
    ghost var st := INIT;
    for i := 0 to |lines|
      invariant st == Scan(lines, i, maxChars) && Collects(lines, st, skip, text, startLine, out)
    {
      ghost var before := st;
      st := Step(lines, st, i, maxChars);
      if Opens(lines[i]) {
        skip := true;
        continue;
      }
      if skip {
        if Closes(lines[i]) {
          skip := false;
        }
        continue;
      }
      text, startLine, out := TakeLine(lines, before, i, maxChars, text, startLine, out);
    }
    out := Flush(lines, st, text, startLine, out);
    if |out| > MAX_CHUNKS {
      out := out[..MAX_CHUNKS];
    }
  }

  // ---------------------------------------------------------------------------------------------
  // What the scan achieves
  // ---------------------------------------------------------------------------------------------

  /** Line e ends a marker block.  A line with both markers begins one. */
  predicate Ends(line: string)
  {
    Closes(line) && !Opens(line)
  }

  /** A block begun before line n has not been ended before line n. */
  predicate Pending(lines: seq<string>, n: nat)
    requires n <= |lines|
  {
    exists b :: 0 <= b < n && Opens(lines[b]) && forall e :: b < e < n ==> !Ends(lines[e])
  }

  /** Line i belongs to a marker block, its two marker lines included. */
  predicate InBlock(lines: seq<string>, i: nat)
    requires i < |lines|
  {
    Opens(lines[i]) || Pending(lines, i)
  }

  /** The lines before n that lie outside every marker block, in order. */
  function Kept(lines: seq<string>, n: nat): seq<nat>
    requires n <= |lines|
  {
    if n == 0 then [] else Kept(lines, n - 1) + if InBlock(lines, n - 1) then [] else [n - 1]
  }

  function FlatGroups(gs: seq<Group>): seq<nat>
  {
    if gs == [] then [] else FlatGroups(gs[..|gs| - 1]) + gs[|gs| - 1]
  }

  /** A flushed text is shorter than `maxChars` or a single line, and only its first line may be a
      heading or blank. */
  predicate GoodShape(lines: seq<string>, g: Group, maxChars: int)
    requires Indices(lines, g)
  {
    && (|GroupText(lines, g)| < maxChars || |g| == 1)
    && forall k :: 0 < k < |g| ==> !Breaks(lines[g[k]])
  }

  /** Groups of good shape, each of which ends only where the next line had to start a new one. */
  predicate Greedy(lines: seq<string>, gs: seq<Group>, maxChars: int)
  {
    && GoodGroups(lines, gs)
    && (forall j :: 0 <= j < |gs| ==> GoodShape(lines, gs[j], maxChars))
    && forall j :: 0 < j < |gs| ==> MustFlush(lines, gs[j - 1], gs[j][0], maxChars)
  }

  lemma PendingStep(lines: seq<string>, n: nat)
    requires n < |lines|
    ensures Pending(lines, n + 1) <==> Opens(lines[n]) || (Pending(lines, n) && !Closes(lines[n]))
  {
    if Pending(lines, n + 1) && !Opens(lines[n]) {
      var b :| 0 <= b < n + 1 && Opens(lines[b]) && forall e :: b < e < n + 1 ==> !Ends(lines[e]);
      assert !Ends(lines[n]);
    }
  }

  lemma GreedyExtend(lines: seq<string>, gs: seq<Group>, g: Group, i: nat, maxChars: int)
    requires i < |lines| && Indices(lines, g) && Greedy(lines, gs + [g], maxChars) && !MustFlush(lines, g, i, maxChars)
    ensures Greedy(lines, gs + [g + [i]], maxChars)
    ensures FlatGroups(gs + [g + [i]]) == FlatGroups(gs + [g]) + [i]
  {
    var old', new' := gs + [g], gs + [g + [i]];
    assert old'[|gs|] == g && old'[..|gs|] == gs && new'[..|gs|] == gs;
    assert (g + [i])[..|g|] == g;
    forall j | 0 <= j < |new'|
      ensures new'[j] != [] && Indices(lines, new'[j]) && GoodShape(lines, new'[j], maxChars)
      ensures j > 0 ==> MustFlush(lines, new'[j - 1], new'[j][0], maxChars)
    {
      if j < |gs| {
        assert new'[j] == old'[j];
      }
      if j > 0 {
        assert new'[j - 1] == old'[j - 1] && new'[j][0] == old'[j][0];
      }
    }
  }

  lemma FlatGroupsSnoc(gs: seq<Group>, g: Group)
    ensures FlatGroups(gs + [g]) == FlatGroups(gs) + g
  {
    assert (gs + [g])[..|gs|] == gs;
  }

  lemma OneLineGroup(lines: seq<string>, i: nat, maxChars: int)
    requires i < |lines|
    ensures Indices(lines, [i]) && GoodShape(lines, [i], maxChars)
  {
  }

  lemma GreedyNew(lines: seq<string>, gs: seq<Group>, i: nat, maxChars: int)
    requires i < |lines| && Greedy(lines, gs, maxChars)
    requires gs == [] || MustFlush(lines, gs[|gs| - 1], i, maxChars)
    ensures Greedy(lines, gs + [[i]], maxChars) && FlatGroups(gs + [[i]]) == FlatGroups(gs) + [i]
  {
    var new' := gs + [[i]];
    FlatGroupsSnoc(gs, [i]);
    OneLineGroup(lines, i, maxChars);
    forall j | 0 <= j < |new'|
      ensures new'[j] != [] && Indices(lines, new'[j]) && GoodShape(lines, new'[j], maxChars)
      ensures j > 0 ==> MustFlush(lines, new'[j - 1], new'[j][0], maxChars)
    {
      if j < |gs| {
        assert new'[j] == gs[j];
      } else {
        assert new'[j] == [i];
      }
      if j > 0 {
        assert new'[j - 1] == gs[j - 1];
      }
    }
  }

  /** The groups of a state, the unfinished one included, partition `kept` greedily. */
  predicate Partition(lines: seq<string>, st: State, kept: seq<nat>, maxChars: int)
  {
    && (st.cur == [] ==> st.done == [])
    && Greedy(lines, Flushed(st).done, maxChars) && FlatGroups(Flushed(st).done) == kept
  }

  lemma StepKeepsPartition(lines: seq<string>, st: State, i: nat, kept: seq<nat>, maxChars: int)
    requires i < |lines| && InRange(i, st) && Partition(lines, st, kept, maxChars)
    ensures Partition(lines, Step(lines, st, i, maxChars),
                      if Opens(lines[i]) || st.skip then kept else kept + [i], maxChars)
  {
    if !Opens(lines[i]) && !st.skip {
      if st.cur != [] && !MustFlush(lines, st.cur, i, maxChars) {
        JoinedIsPartition(lines, st, i, kept, maxChars);
      } else {
        GreedyNew(lines, Flushed(st).done, i, maxChars);
        NewIsPartition(lines, st, i, kept, maxChars);
      }
    }
  }

  lemma JoinedIsPartition(lines: seq<string>, st: State, i: nat, kept: seq<nat>, maxChars: int)
    requires i < |lines| && InRange(i, st) && Partition(lines, st, kept, maxChars)
    requires st.cur != [] && !MustFlush(lines, st.cur, i, maxChars)
    ensures Partition(lines, st.(cur := st.cur + [i]), kept + [i], maxChars)
  {
    GreedyExtend(lines, st.done, st.cur, i, maxChars);
  }

  lemma NewIsPartition(lines: seq<string>, st: State, i: nat, kept: seq<nat>, maxChars: int)
    requires i < |lines| && Partition(lines, st, kept, maxChars)
    requires Greedy(lines, Flushed(st).done + [[i]], maxChars)
    requires FlatGroups(Flushed(st).done + [[i]]) == FlatGroups(Flushed(st).done) + [i]
    ensures Partition(lines, Flushed(st).(cur := Flushed(st).cur + [i]), kept + [i], maxChars)
  {
    assert [] + [i] == [i];
  }

  lemma {:induction false} ScanSkips(lines: seq<string>, n: nat, maxChars: int)
    requires n <= |lines|
    ensures Scan(lines, n, maxChars).skip <==> Pending(lines, n)
  {
    if n > 0 {
      ScanSkips(lines, n - 1, maxChars);
      PendingStep(lines, n - 1);
    }
  }

  lemma KeptStep(lines: seq<string>, n: nat, skip: bool)
    requires n < |lines| && (skip <==> Pending(lines, n))
    ensures Kept(lines, n + 1) == if Opens(lines[n]) || skip then Kept(lines, n) else Kept(lines, n) + [n]
  {
  }

  /** After n lines the groups, the unfinished one included, are a greedy partition of the kept lines. */
  lemma {:induction false} ScanIsGreedy(lines: seq<string>, n: nat, maxChars: int)
    requires n <= |lines|
    ensures Partition(lines, Scan(lines, n, maxChars), Kept(lines, n), maxChars)
  {
    if n > 0 {
      ScanIsGreedy(lines, n - 1, maxChars);
      ScanSkips(lines, n - 1, maxChars);
      KeptStep(lines, n - 1, Scan(lines, n - 1, maxChars).skip);
      StepKeepsPartition(lines, Scan(lines, n - 1, maxChars), n - 1, Kept(lines, n - 1), maxChars);
    }
  }

  /** The texts handed to flush partition the lines outside the marker blocks, in order, and are cut
      greedily. */
  lemma ChunkingIsGreedyPartition(lines: seq<string>, maxChars: int)
    ensures Greedy(lines, Groups(lines, maxChars), maxChars)
    ensures FlatGroups(Groups(lines, maxChars)) == Kept(lines, |lines|)
  {
    ScanIsGreedy(lines, |lines|, maxChars);
  }

  // ---------------------------------------------------------------------------------------------
  // Conservation of text, uniqueness, line numbers
  // ---------------------------------------------------------------------------------------------

  lemma {:induction false} GroupTextAppend(lines: seq<string>, a: Group, b: Group)
    requires Indices(lines, a) && Indices(lines, b)
    ensures Indices(lines, a + b) && GroupText(lines, a + b) == GroupText(lines, a) + GroupText(lines, b)
  {
    if b == [] {
      assert a + b == a;
    } else {
      var n := |b| - 1;
      assert (a + b)[..|a + b| - 1] == a + b[..n];
      GroupTextAppend(lines, a, b[..n]);
    }
  }

  function HandedTexts(lines: seq<string>, gs: seq<Group>): seq<string>
    requires GoodGroups(lines, gs)
  {
    seq(|gs|, j requires 0 <= j < |gs| => GroupText(lines, gs[j]))
  }

  lemma HandedTextsSnoc(lines: seq<string>, gs: seq<Group>)
    requires GoodGroups(lines, gs) && gs != []
    ensures HandedTexts(lines, gs) == HandedTexts(lines, gs[..|gs| - 1]) + [GroupText(lines, gs[|gs| - 1])]
  {
  }

  lemma {:induction false} HandedTextsConserve(lines: seq<string>, gs: seq<Group>)
    requires GoodGroups(lines, gs)
    ensures Indices(lines, FlatGroups(gs)) && Concat(HandedTexts(lines, gs)) == GroupText(lines, FlatGroups(gs))
  {
    if gs == [] {
      assert HandedTexts(lines, gs) == [];
    } else {
      var before, last := gs[..|gs| - 1], gs[|gs| - 1];
      HandedTextsConserve(lines, before);
      GroupTextAppend(lines, FlatGroups(before), last);
      HandedTextsSnoc(lines, gs);
      ConcatAppend(HandedTexts(lines, before), [GroupText(lines, last)]);
      ConcatOne(GroupText(lines, last));
    }
  }

  /** The texts handed to flush, concatenated, are exactly the lines outside the marker blocks, each
      with its line feed; each is shorter than `maxChars` or a single line. */
  lemma HandedTextsAreKeptLines(lines: seq<string>, maxChars: int)
    ensures GoodGroups(lines, Groups(lines, maxChars)) && Indices(lines, Kept(lines, |lines|))
    ensures Concat(HandedTexts(lines, Groups(lines, maxChars))) == GroupText(lines, Kept(lines, |lines|))
    ensures forall j :: 0 <= j < |Groups(lines, maxChars)| ==>
      |HandedTexts(lines, Groups(lines, maxChars))[j]| < maxChars || |Groups(lines, maxChars)[j]| == 1
  {
    ChunkingIsGreedyPartition(lines, maxChars);
    forall j | 0 <= j < |Groups(lines, maxChars)|
      ensures |GroupText(lines, Groups(lines, maxChars)[j])| < maxChars || |Groups(lines, maxChars)[j]| == 1
    {
      assert GoodShape(lines, Groups(lines, maxChars)[j], maxChars);
    }
    HandedTextsConserve(lines, Groups(lines, maxChars));
  }

  lemma {:induction false} FlatGroupsCons(g: Group, gs: seq<Group>)
    ensures FlatGroups([g] + gs) == g + FlatGroups(gs)
  {
    if gs == [] {
      assert [g] + gs == [g] && [g][..0] == [];
    } else {
      assert ([g] + gs)[..|gs|] == [g] + gs[..|gs| - 1];
      FlatGroupsCons(g, gs[..|gs| - 1]);
    }
  }

  /** Inside a group of good shape no line had to start a new group. */
  lemma NoEarlierCut(lines: seq<string>, g: Group, n: nat, maxChars: int)
    requires Indices(lines, g) && GoodShape(lines, g, maxChars) && 0 < n < |g|
    ensures !MustFlush(lines, g[..n], g[n], maxChars)
  {
    GroupTextAppend(lines, g[..n], [g[n]]);
    GroupTextAppend(lines, g[..n + 1], g[n + 1..]);
    assert g[..n] + [g[n]] == g[..n + 1] && g[..n + 1] + g[n + 1..] == g;
    assert [g[n]][..0] == [];
  }

  lemma ShorterFirstGroup(p: seq<Group>, q: seq<Group>)
    requires p != [] && q != [] && FlatGroups(p) == FlatGroups(q) && |p[0]| < |q[0]|
    requires forall j :: 0 <= j < |p| ==> p[j] != []
    requires forall j :: 0 <= j < |q| ==> q[j] != []
    ensures |p| > 1 && p[0] == q[0][..|p[0]|] && p[1][0] == q[0][|p[0]|]
  {
    FlatStartsWithFirst(p);
    FlatStartsWithFirst(q);
    assert p[0] == FlatGroups(p)[..|p[0]|];
  }

  /** Of two greedy cuttings of the same lines neither can have the shorter first group. */
  lemma FirstGroupIsMaximal(lines: seq<string>, p: seq<Group>, q: seq<Group>, maxChars: int)
    requires Greedy(lines, p, maxChars) && Greedy(lines, q, maxChars) && FlatGroups(p) == FlatGroups(q)
    requires p != [] && q != []
    ensures |p[0]| >= |q[0]|
  {
    if |p[0]| < |q[0]| {
      ShorterFirstGroup(p, q);
      assert MustFlush(lines, p[1 - 1], p[1][0], maxChars);
      NoEarlierCut(lines, q[0], |p[0]|, maxChars);
    }
  }

  /** A flattened list of nonempty groups begins with the first group, then the head of the second. */
  lemma FlatStartsWithFirst(p: seq<Group>)
    requires p != [] && forall j :: 0 <= j < |p| ==> p[j] != []
    ensures p[0] <= FlatGroups(p) && FlatGroups(p)[|p[0]|..] == FlatGroups(p[1..])
    ensures |FlatGroups(p)| > |p[0]| ==> |p| > 1 && FlatGroups(p)[|p[0]|] == p[1][0]
  {
    FlatSplits(p);
    if |p| > 1 {
      FlatSplits(p[1..]);
      assert p[1..][0] == p[1];
    }
  }

  lemma FlatSplits(p: seq<Group>)
    requires p != []
    ensures FlatGroups(p) == p[0] + FlatGroups(p[1..])
  {
    assert p == [p[0]] + p[1..];
    FlatGroupsCons(p[0], p[1..]);
  }

  lemma GreedyRest(lines: seq<string>, p: seq<Group>, maxChars: int)
    requires Greedy(lines, p, maxChars) && p != []
    ensures Greedy(lines, p[1..], maxChars)
  {
    forall j | 0 < j < |p[1..]|
      ensures MustFlush(lines, p[1..][j - 1], p[1..][j][0], maxChars)
    {
      assert MustFlush(lines, p[(j + 1) - 1], p[j + 1][0], maxChars);
    }
  }

  lemma SameFirstAndRest(p: seq<Group>, q: seq<Group>)
    requires p != [] && q != [] && p[0] == q[0] && p[1..] == q[1..]
    ensures p == q
  {
    assert p == [p[0]] + p[1..] && q == [q[0]] + q[1..];
  }

  /** A greedy partition is determined by the lines: what the scan computes is the only one. */
  lemma {:induction false} GreedyPartitionIsUnique(lines: seq<string>, p: seq<Group>, q: seq<Group>, maxChars: int)
    requires Greedy(lines, p, maxChars) && Greedy(lines, q, maxChars) && FlatGroups(p) == FlatGroups(q)
    ensures p == q
  {
    if p != [] && q != [] {
      FirstGroupIsMaximal(lines, p, q, maxChars);
      FirstGroupIsMaximal(lines, q, p, maxChars);
      FlatStartsWithFirst(p);
      FlatStartsWithFirst(q);
      assert p[0] == FlatGroups(p)[..|p[0]|] == q[0];
      GreedyRest(lines, p, maxChars);
      GreedyRest(lines, q, maxChars);
      GreedyPartitionIsUnique(lines, p[1..], q[1..], maxChars);
      SameFirstAndRest(p, q);
    }
  }

  lemma {:induction false} KeptIncreases(lines: seq<string>, n: nat)
    requires n <= |lines|
    ensures forall k :: 0 <= k < |Kept(lines, n)| ==> Kept(lines, n)[k] < n
    ensures forall j, k :: 0 <= j < k < |Kept(lines, n)| ==> Kept(lines, n)[j] < Kept(lines, n)[k]
  {
    if n > 0 {
      KeptIncreases(lines, n - 1);
    }
  }

  predicate Increasing(s: seq<nat>)
  {
    forall j, k :: 0 <= j < k < |s| ==> s[j] < s[k]
  }

  predicate StartsIncrease(chunks: seq<Chunk>)
  {
    forall j, k :: 0 <= j < k < |chunks| ==> chunks[j].startLine < chunks[k].startLine
  }

  predicate StartsBelow(chunks: seq<Chunk>, bound: nat)
  {
    forall j :: 0 <= j < |chunks| ==> chunks[j].startLine <= bound
  }

  lemma {:induction false} StartLinesIncreaseFrom(lines: seq<string>, gs: seq<Group>, bound: nat)
    requires GoodGroups(lines, gs) && Increasing(FlatGroups(gs))
    requires forall k :: 0 <= k < |FlatGroups(gs)| ==> FlatGroups(gs)[k] < bound
    ensures StartsIncrease(EmitAll(lines, gs)) && StartsBelow(EmitAll(lines, gs), bound)
  {
    if gs != [] {
      var n := |FlatGroups(gs[..|gs| - 1])|;
      assert FlatGroups(gs)[n] == gs[|gs| - 1][0];
      var before, last := gs[..|gs| - 1], gs[|gs| - 1];
      IncreasingFront(FlatGroups(before), last);
      StartLinesIncreaseFrom(lines, before, last[0]);
      StartsAppend(EmitAll(lines, before), Emit(lines, last), last[0], bound);
    }
  }

  lemma IncreasingFront(older: seq<nat>, last: Group)
    requires last != [] && Increasing(older + last)
    ensures Increasing(older) && forall k :: 0 <= k < |older| ==> older[k] < last[0]
  {
    var flat := older + last;
    assert flat[|older|] == last[0];
    assert forall k :: 0 <= k < |older| ==> flat[k] == older[k];
  }

  lemma StartsAppend(a: seq<Chunk>, b: seq<Chunk>, middle: nat, bound: nat)
    requires StartsIncrease(a) && StartsBelow(a, middle) && middle < bound
    requires |b| <= 1 && (b != [] ==> b[0].startLine == middle + 1)
    ensures StartsIncrease(a + b) && StartsBelow(a + b, bound)
  {
  }

  /** Emitted start lines strictly increase. */
  lemma StartLinesIncrease(content: string, maxLines: int, maxChars: int)
    ensures
      var chunks := ChunkMarkdown(content, maxLines, maxChars);
      forall j, k :: 0 <= j < k < |chunks| ==> chunks[j].startLine < chunks[k].startLine
  {
    var lines := LeadingLines(content, maxLines);
    ChunkingIsGreedyPartition(lines, maxChars);
    KeptIncreases(lines, |lines|);
    StartLinesIncreaseFrom(lines, Groups(lines, maxChars), |lines|);
  }

  lemma {:induction false} KeptIsComplete(lines: seq<string>, n: nat, i: nat)
    requires i < n <= |lines| && !InBlock(lines, i)
    ensures i in Kept(lines, n)
  {
    if i < n - 1 {
      KeptIsComplete(lines, n - 1, i);
    }
  }

  lemma {:induction false} GroupIsSlice(gs: seq<Group>, j: nat) returns (at: nat)
    requires j < |gs|
    ensures at + |gs[j]| <= |FlatGroups(gs)| && FlatGroups(gs)[at..at + |gs[j]|] == gs[j]
  {
    var before := gs[..|gs| - 1];
    if j == |gs| - 1 {
      at := |FlatGroups(before)|;
    } else {
      at := GroupIsSlice(before, j);
      assert FlatGroups(gs)[..|FlatGroups(before)|] == FlatGroups(before);
    }
  }

  lemma {:induction false} BlankGroup(lines: seq<string>, g: Group)
    requires Indices(lines, g)
    ensures Blank(GroupText(lines, g)) <==> forall k :: 0 <= k < |g| ==> Blank(lines[g[k]])
  {
    if g != [] {
      var before, last := g[..|g| - 1], lines[g[|g| - 1]];
      BlankGroup(lines, before);
      BlankConcat(GroupText(lines, before) + last, "\n");
      BlankConcat(GroupText(lines, before), last);
    }
  }

  lemma BlankConcat(a: string, b: string)
    ensures Blank(a + b) <==> Blank(a) && Blank(b)
  {
    assert forall i :: 0 <= i < |a| ==> (a + b)[i] == a[i];
    assert forall i :: 0 <= i < |b| ==> (a + b)[|a| + i] == b[i];
  }

  /** A kept line between two lines of a group is in the group. */
  lemma GroupsAreContiguous(lines: seq<string>, maxChars: int, j: nat, i: nat)
    requires j < |Groups(lines, maxChars)| && i < |lines| && !InBlock(lines, i)
    requires
      var g := Groups(lines, maxChars)[j];
      g != [] && g[0] <= i <= g[|g| - 1]
    ensures exists k :: 0 <= k < |Groups(lines, maxChars)[j]| && Groups(lines, maxChars)[j][k] == i
  {
    var gs, kept := Groups(lines, maxChars), Kept(lines, |lines|);
    GroupsFlatten(lines, maxChars);
    KeptIsIncreasing(lines);
    KeptIsComplete(lines, |lines|, i);
    var k := GroupHas(kept, gs, j, i);
  }

  lemma GroupHas(kept: seq<nat>, gs: seq<Group>, j: nat, i: nat) returns (k: nat)
    requires Increasing(kept) && FlatGroups(gs) == kept && j < |gs| && gs[j] != []
    requires i in kept && gs[j][0] <= i <= gs[j][|gs[j]| - 1]
    ensures k < |gs[j]| && gs[j][k] == i
  {
    var at := GroupIsSlice(gs, j);
    k := SliceHas(kept, at, gs[j], i);
  }

  lemma GroupsFlatten(lines: seq<string>, maxChars: int)
    ensures FlatGroups(Groups(lines, maxChars)) == Kept(lines, |lines|)
  {
    ChunkingIsGreedyPartition(lines, maxChars);
  }

  lemma KeptIsIncreasing(lines: seq<string>)
    ensures Increasing(Kept(lines, |lines|))
  {
    KeptIncreases(lines, |lines|);
  }

  /** A slice of an increasing list has every element between its first and its last. */
  lemma SliceHas(kept: seq<nat>, at: nat, g: Group, i: nat) returns (k: nat)
    requires Increasing(kept)
    requires at + |g| <= |kept| && kept[at..at + |g|] == g && g != [] && i in kept && g[0] <= i <= g[|g| - 1]
    ensures k < |g| && g[k] == i
  {
    var p :| 0 <= p < |kept| && kept[p] == i;
    assert kept[at] == g[0] && kept[at + |g| - 1] == g[|g| - 1];
    k := p - at;
    assert g[k] == kept[at..at + |g|][k];
  }

  /** Line g[k] has text, and from the group's start line up to it there are only blank lines and
      lines of marker blocks. */
  predicate FirstTextAt(lines: seq<string>, g: Group, k: nat)
    requires Indices(lines, g) && k < |g|
  {
    !Blank(lines[g[k]]) && forall i :: g[0] <= i < g[k] ==> i < |lines| && (Blank(lines[i]) || InBlock(lines, i))
  }

  lemma OnlyBlankBefore(lines: seq<string>, maxChars: int, j: nat, k: nat)
    requires j < |Groups(lines, maxChars)| && GoodGroups(lines, Groups(lines, maxChars))
    requires
      var g := Groups(lines, maxChars)[j];
      k < |g| && !Blank(lines[g[k]]) && forall m :: 0 <= m < k ==> Blank(lines[g[m]])
    ensures FirstTextAt(lines, Groups(lines, maxChars)[j], k)
  {
    var g := Groups(lines, maxChars)[j];
    GroupIncreases(lines, maxChars, j);
    forall i | g[0] <= i < g[k]
      ensures i < |lines| && (Blank(lines[i]) || InBlock(lines, i))
    {
      AtMostLast(g, k);
      if !InBlock(lines, i) {
        GroupsAreContiguous(lines, maxChars, j, i);
        var m :| 0 <= m < |g| && g[m] == i;
        assert m < k;
      }
    }
  }

  lemma AtMostLast(g: Group, k: nat)
    requires Increasing(g) && k < |g|
    ensures g[k] <= g[|g| - 1]
  {
  }

  lemma GroupIncreases(lines: seq<string>, maxChars: int, j: nat)
    requires j < |Groups(lines, maxChars)|
    ensures Increasing(Groups(lines, maxChars)[j])
  {
    var g := Groups(lines, maxChars)[j];
    GroupsFlatten(lines, maxChars);
    KeptIsIncreasing(lines);
    var at := GroupIsSlice(Groups(lines, maxChars), j);
    SliceIncreases(Kept(lines, |lines|), at, g);
  }

  lemma SliceIncreases(kept: seq<nat>, at: nat, g: Group)
    requires Increasing(kept) && at + |g| <= |kept| && kept[at..at + |g|] == g
    ensures Increasing(g)
  {
    assert forall a :: 0 <= a < |g| ==> g[a] == kept[at + a];
  }

  /** A chunk is emitted exactly for a text with a non-blank line, and between the chunk's start line
      and the first such line there are only blank lines and lines of marker blocks. */
  lemma ChunkStartsNearItsText(lines: seq<string>, maxChars: int, j: nat)
    requires j < |Groups(lines, maxChars)|
    ensures GoodGroups(lines, Groups(lines, maxChars))
    ensures
      var g := Groups(lines, maxChars)[j];
      if forall k :: 0 <= k < |g| ==> Blank(lines[g[k]]) then Emit(lines, g) == []
      else Emit(lines, g) == [Chunk(Trim(GroupText(lines, g)), g[0] + 1)]
           && exists k :: 0 <= k < |g| && FirstTextAt(lines, g, k)
  {
    ChunkingIsGreedyPartition(lines, maxChars);
    var g := Groups(lines, maxChars)[j];
    BlankGroup(lines, g);
    TrimBlank(GroupText(lines, g));
    if k0 :| 0 <= k0 < |g| && !Blank(lines[g[k0]]) {
      var k := FirstText(lines, g, k0);
      OnlyBlankBefore(lines, maxChars, j, k);
    }
  }

  lemma FirstText(lines: seq<string>, g: Group, k0: nat) returns (k: nat)
    requires Indices(lines, g) && k0 < |g| && !Blank(lines[g[k0]])
    ensures k < |g| && !Blank(lines[g[k]]) && forall m :: 0 <= m < k ==> Blank(lines[g[m]])
  {
    k := 0;
    while Blank(lines[g[k]])
      invariant k <= k0 && forall m :: 0 <= m < k ==> Blank(lines[g[m]])
      decreases k0 - k
    {
      k := k + 1;
    }
  }
}
