/** Where the chunker cuts, in characters. */
module MarkdownCuts {
  import opened Text
  import opened MarkdownChunker

  /** Nothing but the white space of C's default locale, by code. */
  predicate WhiteOnly(line: string)
  {
    forall i :: 0 <= i < |line| ==> line[i] as int == 32 || 9 <= line[i] as int <= 13
  }

  /** A heading, or a line without text. */
  predicate StartsText(line: string)
  {
    (|line| > 0 && line[0] == '#') || WhiteOnly(line)
  }

  lemma BreaksInCharacters(line: string)
    ensures Breaks(line) <==> StartsText(line)
  {
    TrimBlank(line);
  }

  /** Inside a chunk's text only the first line is a heading or without text. */
  predicate CutBefore(lines: seq<string>, g: Group)
    requires Indices(lines, g)
  {
    forall k :: 0 < k < |g| ==> !StartsText(lines[g[k]])
  }

  /** The next text begins because its first line is a heading or without text, or is too long to join. */
  predicate CutAfter(lines: seq<string>, g: Group, next: Group, maxChars: int)
    requires Indices(lines, g) && Indices(lines, next) && next != []
  {
    StartsText(lines[next[0]]) || |GroupText(lines, g)| + |lines[next[0]]| + 1 >= maxChars
  }

  /** Texts are cut before headings and before lines without text, and elsewhere only for their length. */
  lemma CutsInCharacters(lines: seq<string>, maxChars: int)
    ensures
      var gs := Groups(lines, maxChars);
      && GoodGroups(lines, gs)
      && (forall j :: 0 <= j < |gs| ==> CutBefore(lines, gs[j]))
      && (forall j :: 0 < j < |gs| ==> CutAfter(lines, gs[j - 1], gs[j], maxChars))
  {
    var gs := Groups(lines, maxChars);
    ChunkingIsGreedyPartition(lines, maxChars);
    forall j | 0 <= j < |gs|
      ensures CutBefore(lines, gs[j])
    {
      ShapeInCharacters(lines, gs[j], maxChars);
    }
    forall j | 0 < j < |gs|
      ensures CutAfter(lines, gs[j - 1], gs[j], maxChars)
    {
      assert MustFlush(lines, gs[j - 1], gs[j][0], maxChars);
      BreaksInCharacters(lines[gs[j][0]]);
    }
  }

  lemma ShapeInCharacters(lines: seq<string>, g: Group, maxChars: int)
    requires Indices(lines, g) && GoodShape(lines, g, maxChars)
    ensures CutBefore(lines, g)
  {
    forall k | 0 < k < |g|
      ensures !StartsText(lines[g[k]])
    {
      assert !Breaks(lines[g[k]]);
      BreaksInCharacters(lines[g[k]]);
    }
  }

  ghost predicate BeginsBlock(line: string)
  {
    exists a, b :: line == a + "<!-- AGENT_MEMORY_V1_BEGIN -->" + b
  }

  ghost predicate EndsBlock(line: string)
  {
    exists a, b :: line == a + "<!-- AGENT_MEMORY_V1_END -->" + b
  }

  lemma ContainsIff(s: string, needle: string)
    ensures Contains(s, needle) <==> exists a, b :: s == a + needle + b
  {
    if i :| 0 <= i <= |s| && OccursAt(s, needle, i) {
      assert s == s[..i] + needle + s[i + |needle|..];
    }
    if a, b :| s == a + needle + b {
      assert s[|a|..] == needle + b;
      assert OccursAt(s, needle, |a|);
    }
  }

  /** A block begun at line b is ended before line i, by a line that does not begin one itself. */
  ghost predicate EndedBefore(lines: seq<string>, b: nat, i: nat)
    requires i <= |lines|
  {
    exists e :: b < e < i && EndsBlock(lines[e]) && !BeginsBlock(lines[e])
  }

  lemma EndedIff(lines: seq<string>, b: nat, i: nat)
    requires b < i <= |lines|
    ensures EndedBefore(lines, b, i) <==> !forall e :: b < e < i ==> !Ends(lines[e])
  {
    MarkersInCharacters(lines);
    if e :| b < e < i && Ends(lines[e]) {
      assert EndsBlock(lines[e]) && !BeginsBlock(lines[e]);
    }
  }

  /** The lines handed to the chunks are exactly those that neither begin a marker block nor lie in one. */
  lemma KeptInCharacters(lines: seq<string>, maxChars: int, i: nat)
    requires i < |lines|
    ensures i in FlatGroups(Groups(lines, maxChars)) <==>
      !BeginsBlock(lines[i]) && forall b :: 0 <= b < i && BeginsBlock(lines[b]) ==> EndedBefore(lines, b, i)
  {
    GroupsFlatten(lines, maxChars);
    KeptIffOutside(lines, |lines|, i);
    MarkersInCharacters(lines);
    forall b | 0 <= b < i
      ensures EndedBefore(lines, b, i) <==> !forall e :: b < e < i ==> !Ends(lines[e])
    {
      EndedIff(lines, b, i);
    }
  }

  lemma MarkersInCharacters(lines: seq<string>)
    ensures forall k :: 0 <= k < |lines| ==>
      (Opens(lines[k]) <==> BeginsBlock(lines[k])) && (Closes(lines[k]) <==> EndsBlock(lines[k]))
  {
    forall k | 0 <= k < |lines|
      ensures (Opens(lines[k]) <==> BeginsBlock(lines[k])) && (Closes(lines[k]) <==> EndsBlock(lines[k]))
    {
      ContainsIff(lines[k], BEGIN_MARKER);
      ContainsIff(lines[k], END_MARKER);
    }
  }

  lemma {:induction false} KeptIffOutside(lines: seq<string>, n: nat, i: nat)
    requires i < n <= |lines|
    ensures i in Kept(lines, n) <==> !InBlock(lines, i)
  {
    KeptIncreases(lines, n - 1);
    if i < n - 1 {
      KeptIffOutside(lines, n - 1, i);
    }
  }

  /** Lines come back as they are; only a carriage return before a line feed is dropped. */
  lemma {:induction false} LinesComeBack(lines: seq<string>, crs: seq<bool>)
    requires |crs| == |lines| && forall k :: 0 <= k < |lines| ==> OneLine(lines[k])
    ensures SplitLines(WithEnds(lines, crs)) == lines
  {
    if lines != [] {
      FirstOfLines(lines[0], crs[0], WithEnds(lines[1..], crs[1..]));
      LinesComeBack(lines[1..], crs[1..]);
      assert [lines[0]] + lines[1..] == lines;
    }
  }

  predicate OneLine(line: string)
  {
    '\n' !in line && (line != "" ==> line[|line| - 1] != '\r')
  }

  lemma FirstOfLines(line: string, cr: bool, rest: string)
    requires OneLine(line)
    ensures FirstLine(WithEnd(line, cr) + ("\n" + rest)) == line && AfterLine(WithEnd(line, cr) + ("\n" + rest)) == rest
  {
    var whole := WithEnd(line, cr);
    var text := whole + ("\n" + rest);
    FirstIndexSkips(whole, '\n', rest);
    assert text[..|whole|] == whole && text[|whole| + 1..] == rest;
  }

  function WithEnd(line: string, cr: bool): string
  {
    if cr then line + "\r" else line
  }

  /** The lines, each with a line feed or a carriage return and a line feed. */
  function WithEnds(lines: seq<string>, crs: seq<bool>): string
    requires |crs| == |lines|
  {
    if lines == [] then "" else WithEnd(lines[0], crs[0]) + ("\n" + WithEnds(lines[1..], crs[1..]))
  }

  /** At most the first thousand chunks are kept. */
  lemma FirstThousandChunks(lines: seq<string>, maxChars: int)
    ensures GoodGroups(lines, Groups(lines, maxChars))
    ensures
      var all := EmitAll(lines, Groups(lines, maxChars));
      ChunksOf(lines, maxChars) == all[..Min(1000, |all|)]
  {
    ScanGroupsGood(lines, |lines|, maxChars);
  }

  /** Of the lines of a file the first `maxLines` are read, and one in any case. */
  lemma LinesRead(content: string, maxLines: int)
    ensures LeadingLines(content, maxLines) <= SplitLines(content)
    ensures |LeadingLines(content, maxLines)| == Min(|SplitLines(content)|, if maxLines > 0 then maxLines else 1)
  {
  }

  /** A chunk's text is what is left of its lines without the white space at both ends. */
  lemma TrimInCharacters(s: string) returns (before: string, after: string)
    ensures s == before + (Trim(s) + after) && WhiteOnly(before) && WhiteOnly(after)
    ensures Trim(s) != "" ==> !WhiteOnly([Trim(s)[0]]) && !WhiteOnly([Trim(s)[|Trim(s)| - 1]])
  {
    before := StartInCharacters(s);
    after := EndInCharacters(TrimStart(s));
  }

  lemma {:induction false} StartInCharacters(s: string) returns (before: string)
    ensures s == before + TrimStart(s) && WhiteOnly(before)
    ensures TrimStart(s) != "" ==> !WhiteOnly([TrimStart(s)[0]])
  {
    if s == "" || !IsSpace(s[0]) {
      before := "";
      assert s != "" ==> [s[0]][0] == s[0];
    } else {
      var rest := StartInCharacters(s[1..]);
      before := [s[0]] + rest;
    }
  }

  lemma {:induction false} EndInCharacters(s: string) returns (after: string)
    ensures s == TrimEnd(s) + after && WhiteOnly(after)
    ensures TrimEnd(s) != "" ==> TrimEnd(s)[0] == s[0] && !WhiteOnly([TrimEnd(s)[|TrimEnd(s)| - 1]])
  {
    if s == "" || !IsSpace(s[|s| - 1]) {
      after := "";
      assert s != "" ==> [s[|s| - 1]][0] == s[|s| - 1];
    } else {
      var rest := EndInCharacters(s[..|s| - 1]);
      after := rest + [s[|s| - 1]];
    }
  }
}
