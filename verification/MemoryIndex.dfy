/** The memory index on files: chunking, reading, and one refresh of the two tables. */
module MemoryIndex {
  import opened Text
  import opened MarkdownChunker
  import opened IndexProtocol

  const READ_LIMIT := 2 * 1024 * 1024
  const PIECE := 64 * 1024
  const MAX_LINES := 20000
  const MAX_CHUNK_CHARS := 1600

  /** The rows of a list of chunks; the text is bound as a C string. */
  function RowsOfChunks(chunks: seq<Chunk>, mtime: int): seq<Row>
  {
    seq(|chunks|, i requires 0 <= i < |chunks| => Row(CStr(chunks[i].text), chunks[i].startLine, mtime))
  }

  /** What is read of a file, and the rows that re-chunking it gives. */
  function MarkdownRows(): Chunker
  {
    Chunker(READ_LIMIT,
      (content, mtime) => RowsOfChunks(ChunkMarkdown(content, MAX_LINES, MAX_CHUNK_CHARS), mtime))
  }

  function RowsFor(content: string, mtime: int): seq<Row> { MarkdownRows().Rows(content, mtime) }

  /** The rows of a file: those of the chunks, of at most 1600 characters, of the first 20000 lines of its
      first 2097152 bytes, each with the file's mtime. */
  lemma RowsInNumbers(content: string, mtime: int)
    ensures
      var read := if |content| <= 2097152 then content else content[..2097152];
      var chunks := ChunkMarkdown(read, 20000, 1600);
      && |RowsFor(content, mtime)| == |chunks|
      && forall i :: 0 <= i < |chunks| ==>
           && RowsFor(content, mtime)[i].text == CStr(chunks[i].text)
           && RowsFor(content, mtime)[i].startLine == chunks[i].startLine && RowsFor(content, mtime)[i].mtime == mtime
  {
  }

  lemma OneLetterFile(mtime: int)
    ensures RowsFor("a", mtime) != []
  {
    OneLine();
    OneGroup(["a"]);
  }

  lemma OneLine()
    ensures LeadingLines("a", MAX_LINES) == ["a"]
  {
    assert FirstIndex("a", '\n') == 1;
    assert "a"[..1] == "a";
    assert SplitLines("a") == ["a"] + SplitLines("");
  }

  lemma OneGroup(lines: seq<string>)
    requires lines == ["a"]
    ensures ChunksOf(lines, MAX_CHUNK_CHARS) != []
  {
    OneScan(lines);
    OneEmitted(lines);
    ScanGroupsGood(lines, |lines|, MAX_CHUNK_CHARS);
  }

  lemma OneScan(lines: seq<string>)
    requires lines == ["a"]
    ensures Groups(lines, MAX_CHUNK_CHARS) == [[0]]
  {
    assert !Opens("a");
    assert !Breaks("a");
    assert GroupText(lines, []) == "";
    assert Scan(lines, 1, MAX_CHUNK_CHARS) == Step(lines, INIT, 0, MAX_CHUNK_CHARS) == MarkdownChunker.State(false, [0], []);
    assert [] + [[0]] == [[0]];
  }

  lemma OneEmitted(lines: seq<string>)
    requires lines == ["a"]
    ensures GoodGroups(lines, [[0]]) && EmitAll(lines, [[0]]) != []
  {
    assert [0][..0] == [];
    assert GroupText(lines, [0]) == "a\n";
    TrimBlank("a\n");
    assert [] + [[0]] == [[0]];
    EmitOneMore(lines, [], [0]);
  }

  /** The loss of chunks happens with memory files as small as one letter. */
  lemma MemoryFilesCanLoseChunks(p: Path) returns (run: seq<Action>)
    ensures Initial(OneFile(p, "a")) && Possible(MarkdownRows(), OneFile(p, "a"), run)
    ensures !Sound(MarkdownRows(), After(MarkdownRows(), OneFile(p, "a"), run), p)
  {
    OneLetterFile(2);
    run := TwoIndexersCanLoseChunks(MarkdownRows(), p, "a");
  }

  // ---------------------------------------------------------------------------------------------
  // One refresh, with no writer beside it
  // ---------------------------------------------------------------------------------------------

  /** What the index holds for one path. */
  datatype Entry = Entry(row: Option<int>, chunks: seq<Row>)

  /** What a refresh leaves for a file: nothing is done when the recorded mtime is the file's. */
  function RefreshedEntry(file: File, e: Entry): Entry
  {
    if e.row == Some(file.mtime) then e
    else if file.readable then Entry(Some(file.mtime), RowsFor(file.content, file.mtime))
    else Entry(None, [])
  }

  predicate ExactFor(file: File, e: Entry)
  {
    e.row == Some(file.mtime) ==> e.chunks == RowsFor(file.content, file.mtime)
  }

  /** Afterwards a readable file is indexed exactly, an unreadable one exactly or not at all, and a
      second refresh would change nothing. */
  lemma RefreshedEntryIsExact(file: File, e: Entry)
    requires ExactFor(file, e)
    ensures
      var r := RefreshedEntry(file, e);
      && (file.readable ==> r == Entry(Some(file.mtime), RowsFor(file.content, file.mtime)))
      && (!file.readable ==> r == Entry(Some(file.mtime), RowsFor(file.content, file.mtime)) || r == Entry(None, []))
      && RefreshedEntry(file, r) == r
  {
  }

  method ReadFileBounded(content: string, maxBytes: nat) returns (out: string)
    ensures out == if |content| <= maxBytes then content else content[..maxBytes]
  {
    out := "";
    var remaining, eof := maxBytes, false;
    while remaining > 0 && !eof
      invariant remaining >= 0 && |out| + remaining == maxBytes && out <= content
      invariant eof ==> out == content
      decreases remaining, !eof
    {
      var want := if PIECE <= remaining then PIECE else remaining;
      var left := |content| - |out|;
      var got := if left < want then left else want;
      eof := got < want;
      out := out + content[|out|..|out| + got];
      remaining := remaining - got;
    }
    assert out == content[..|out|] && content == content[..|content|];
  }

  class Index {
    var rows: map<Path, int>
    var chunks: map<Path, seq<Row>>

    constructor ()
      ensures rows == map[] && chunks == map[]
    {
      rows, chunks := map[], map[];
    }

    ghost function EntryOf(p: Path): Entry
      reads this
    {
      Entry(if p in rows then Some(rows[p]) else None, if p in chunks then chunks[p] else [])
    }

    /** Indexes a file whose recorded mtime differs.  Any statement may fail; a failure inside the
        transaction leaves both tables as they were, one between the two clean-up statements for an
        unreadable file leaves its row without chunks. */
    method IndexOneFile(path: Path, file: File) returns (ok: bool)
      requires EntryOf(path).row != Some(file.mtime)
      modifies this
      ensures ok ==> EntryOf(path) == RefreshedEntry(file, old(EntryOf(path)))
      ensures !ok ==>
        EntryOf(path) == old(EntryOf(path)) || (!file.readable && EntryOf(path) == Entry(old(EntryOf(path).row), []))
      ensures forall p :: p != path ==> EntryOf(p) == old(EntryOf(p))
    {
      if !file.readable {
        var first: bool, second: bool := *, *;
        if !first { return false; }
        chunks := chunks - {path};
        if !second { return false; }
        rows := rows - {path};
        return true;
      }
      var content := ReadFileBounded(file.content, READ_LIMIT);
      var parts := ChunkMarkdownForIndex(content, MAX_LINES, MAX_CHUNK_CHARS);
      var prepared: bool := *;
      if !prepared { return false; }
      var inserted: seq<Row>;
      ok, inserted := InsertChunks(parts, file.mtime);
      if ok {
        rows, chunks := rows[path := file.mtime], chunks[path := inserted];
      }
    }

    /** Brings the index up to date for every allowed path that is a file.  On failure each path is
        as it was, or up to date, or stripped of its chunks by a half-done clean-up. */
    method Refresh(files: map<Path, File>, allowed: seq<Path>) returns (ok: bool)
      modifies this
      ensures ok ==> forall p :: EntryOf(p) == RefreshedPath(files, allowed, p, old(EntryOf(p)))
      ensures !ok ==> forall p :: Partly(files, p, old(EntryOf(p)), EntryOf(p))
    {
      var i := 0;
      while i < |allowed|
        invariant i <= |allowed|
        invariant forall p :: EntryOf(p) == RefreshedPath(files, allowed[..i], p, old(EntryOf(p)))
      {
        var p := allowed[i];
        assert allowed[..i + 1] == allowed[..i] + [p];
        i := i + 1;
        if p in files && !(p in rows && rows[p] == files[p].mtime) {
          var done := IndexOneFile(p, files[p]);
          if !done { return false; }
        }
      }
      assert allowed[..i] == allowed;
      ok := true;
    }
  }

  /** A refresh touches exactly the allowed paths that are files. */
  function RefreshedPath(files: map<Path, File>, allowed: seq<Path>, p: Path, e: Entry): Entry
  {
    if p in allowed && p in files then RefreshedEntry(files[p], e) else e
  }

  function EntryIn(st: World, p: Path): Entry
  {
    Entry(if p in st.rows then Some(st.rows[p]) else None, ChunkRows(st, p))
  }

  lemma VisitedEntry(st: World, id: ProcId, p: Path, q: Path)
    ensures Visited(MarkdownRows(), st, id, p).files == st.files
    ensures EntryIn(Visited(MarkdownRows(), st, id, p), q) ==
      if q == p && p in st.files then RefreshedEntry(st.files[p], EntryIn(st, q)) else EntryIn(st, q)
  {
  }

  lemma RefreshedTwice(file: File, e: Entry)
    ensures RefreshedEntry(file, RefreshedEntry(file, e)) == RefreshedEntry(file, e)
  {
  }

  lemma {:induction false} AllVisitedEntry(st: World, id: ProcId, allowed: seq<Path>, q: Path)
    ensures AllVisited(MarkdownRows(), st, id, allowed).files == st.files
    ensures EntryIn(AllVisited(MarkdownRows(), st, id, allowed), q) ==
      RefreshedPath(st.files, allowed, q, EntryIn(st, q))
    decreases |allowed|
  {
    if allowed != [] {
      VisitedEntry(st, id, allowed[0], q);
      AllVisitedEntry(Visited(MarkdownRows(), st, id, allowed[0]), id, allowed[1..], q);
      assert q in allowed <==> q == allowed[0] || q in allowed[1..];
      if q in st.files {
        RefreshedTwice(st.files[q], EntryIn(st, q));
      }
    }
  }

  /** A refresh beside no writer is a run of the protocol: from any tables and any stage of the other
      indexers, one indexer that works alone can do it, and leaves for every path the entry that
      `Index.Refresh` leaves. */
  lemma RefreshIsARun(st: World, id: ProcId, allowed: seq<Path>) returns (run: seq<Action>)
    requires ProcOf(st, id).Idle?
    ensures Possible(MarkdownRows(), st, run) && OnlyWorks(run, id)
    ensures
      var after := After(MarkdownRows(), st, run);
      after.files == st.files
      && forall p :: EntryIn(after, p) == RefreshedPath(st.files, allowed, p, EntryIn(st, p))
  {
    run := AllVisitedIsARun(MarkdownRows(), st, id, allowed);
    forall p
      ensures EntryIn(AllVisited(MarkdownRows(), st, id, allowed), p) == RefreshedPath(st.files, allowed, p, EntryIn(st, p))
      ensures AllVisited(MarkdownRows(), st, id, allowed).files == st.files
    {
      AllVisitedEntry(st, id, allowed, p);
    }
    AllVisitedEntry(st, id, allowed, "");
  }

  predicate Partly(files: map<Path, File>, p: Path, was: Entry, now: Entry)
  {
    now == was || (p in files && (now == RefreshedEntry(files[p], was)
      || (!files[p].readable && now == Entry(was.row, []))))
  }

  /** The insertions of a transaction, one statement each; any of them may fail. */
  method InsertChunks(parts: seq<Chunk>, mtime: int) returns (ok: bool, inserted: seq<Row>)
    ensures ok ==> inserted == RowsOfChunks(parts, mtime)
  {
    inserted := [];
    for i := 0 to |parts|
      invariant inserted == RowsOfChunks(parts, mtime)[..i]
    {
      ok := *;
      if !ok { return; }
      inserted := inserted + [Row(CStr(parts[i].text), parts[i].startLine, mtime)];
    }
    ok := true;
  }
}
