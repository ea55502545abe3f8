/** The mtime-keyed index of memory files as a protocol: any number of indexers refresh it while other
    programs write, delete and re-permission the files. */
module IndexProtocol {
  type Path = string

  type ProcId = nat

  datatype File = File(mtime: int, content: string, readable: bool)

  /** A row of the chunk table: text, line and time stamp (its path is the key it is filed under). */
  datatype Row = Row(text: string, startLine: nat, mtime: int)

  /** How much of a file is read, and the rows that chunking its content gives. */
  datatype Chunker = Chunker(limit: nat, rowsOf: (string, int) -> seq<Row>)
  {
    function Rows(content: string, mtime: int): seq<Row> { rowsOf(Bounded(this, content), mtime) }
  }

  /** What an indexer reads of a file. */
  function Bounded(c: Chunker, content: string): string
  {
    if |content| <= c.limit then content else content[..c.limit]
  }

  // ---------------------------------------------------------------------------------------------
  // Indexers and writers as a state machine
  // ---------------------------------------------------------------------------------------------

  /** Where an indexer is between two of its system calls or statements. */
  datatype Proc =
    | Idle
    | Probed(path: Path)                                  // status() found a regular file
    | Statted(path: Path, mtime: int)                     // last_write_time() answered, 0 on failure
    | Opening(path: Path, mtime: int)                     // the recorded mtime differs
    | Reading(path: Path, mtime: int, buf: string)
    | HasContent(path: Path, mtime: int, content: string)
    | Unreadable(path: Path)                              // the file could not be opened
    | ChunksDeleted(path: Path)                           // first of the two clean-up statements done

  /** `rows` is the table of recorded mtimes, `chunks` the chunk table by path.  `used` are all mtimes
      any file ever had, and 0; `half` the paths whose chunks a clean-up deleted while their row stands. */
  datatype World = World(
    files: map<Path, File>,
    used: set<int>,
    rows: map<Path, int>,
    chunks: map<Path, seq<Row>>,
    procs: map<ProcId, Proc>,
    half: set<Path>
  )

  datatype Action =
    | WriteFile(path: Path, file: File)
    | DeleteFile(path: Path)
    | SetReadable(path: Path, readable: bool)
    | Probe(id: ProcId, path: Path)
    | TakeMtime(id: ProcId)
    | Compare(id: ProcId)
    | Open(id: ProcId)
    | ReadPiece(id: ProcId, piece: string)
    | FinishRead(id: ProcId)
    | Commit(id: ProcId)
    | DeleteChunks(id: ProcId)
    | DeleteRow(id: ProcId)
    | Crash(id: ProcId)

  function ProcOf(st: World, id: ProcId): Proc
  {
    if id in st.procs then st.procs[id] else Idle
  }

  /** The file an indexer works on is still the one whose mtime it took. */
  predicate Unchanged(st: World, path: Path, mtime: int)
  {
    path in st.files && st.files[path].mtime == mtime
  }

  /** A writer never reuses an mtime.  A read of a file that changed under the reader may give
      anything; otherwise it gives the bytes that come next. */
  predicate Enabled(c: Chunker, st: World, a: Action)
  {
    match a
    case WriteFile(p, f) => f.mtime !in st.used
    case DeleteFile(p) => true
    case SetReadable(p, _) => p in st.files
    case Probe(id, p) => ProcOf(st, id).Idle?
    case TakeMtime(id) => ProcOf(st, id).Probed?
    case Compare(id) => ProcOf(st, id).Statted?
    case Open(id) => ProcOf(st, id).Opening?
    case ReadPiece(id, piece) =>
      var q := ProcOf(st, id);
      q.Reading? && |q.buf| + |piece| <= c.limit
      && (Unchanged(st, q.path, q.mtime) ==> q.buf + piece <= st.files[q.path].content)
    case FinishRead(id) =>
      var q := ProcOf(st, id);
      q.Reading?
      && (Unchanged(st, q.path, q.mtime) && |q.buf| < c.limit ==> |q.buf| >= |st.files[q.path].content|)
    case Commit(id) => ProcOf(st, id).HasContent?
    case DeleteChunks(id) => ProcOf(st, id).Unreadable?
    case DeleteRow(id) => ProcOf(st, id).ChunksDeleted?
    case Crash(id) => true
  }

  function Next(c: Chunker, st: World, a: Action): World
    requires Enabled(c, st, a)
  {
    match a
    case WriteFile(p, f) => st.(files := st.files[p := f], used := st.used + {f.mtime})
    case DeleteFile(p) => st.(files := st.files - {p})
    case SetReadable(p, r) => st.(files := st.files[p := st.files[p].(readable := r)])
    case Probe(id, p) => st.(procs := st.procs[id := if p in st.files then Probed(p) else Idle])
    case TakeMtime(id) =>
      var p := st.procs[id].path;
      st.(procs := st.procs[id := Statted(p, if p in st.files then st.files[p].mtime else 0)])
    case Compare(id) =>
      var q := st.procs[id];
      var same := q.path in st.rows && st.rows[q.path] == q.mtime;
      st.(procs := st.procs[id := if same then Idle else Opening(q.path, q.mtime)])
    case Open(id) =>
      var q := st.procs[id];
      var ok := q.path in st.files && st.files[q.path].readable;
      st.(procs := st.procs[id := if ok then Reading(q.path, q.mtime, "") else Unreadable(q.path)])
    case ReadPiece(id, piece) =>
      var q := st.procs[id];
      st.(procs := st.procs[id := q.(buf := q.buf + piece)])
    case FinishRead(id) =>
      var q := st.procs[id];
      st.(procs := st.procs[id := HasContent(q.path, q.mtime, q.buf)])
    case Commit(id) =>
      var q := st.procs[id];
      st.(rows := st.rows[q.path := q.mtime],
          chunks := st.chunks[q.path := c.Rows(q.content, q.mtime)],
          procs := st.procs[id := Idle],
          half := st.half - {q.path})
    case DeleteChunks(id) =>
      var p := st.procs[id].path;
      st.(chunks := st.chunks - {p}, procs := st.procs[id := ChunksDeleted(p)], half := st.half + {p})
    case DeleteRow(id) =>
      var p := st.procs[id].path;
      st.(rows := st.rows - {p}, procs := st.procs[id := Idle], half := st.half - {p})
    case Crash(id) => st.(procs := st.procs[id := Idle])
  }

  /** Every action in turn is possible. */
  predicate Possible(c: Chunker, st: World, run: seq<Action>)
    decreases |run|
  {
    run == [] || (Enabled(c, st, run[0]) && Possible(c, Next(c, st, run[0]), run[1..]))
  }

  function After(c: Chunker, st: World, run: seq<Action>): World
    requires Possible(c, st, run)
    decreases |run|
  {
    if run == [] then st else After(c, Next(c, st, run[0]), run[1..])
  }

  /** Before anything ran: no index, no indexer, files with mtimes other than 0. */
  predicate Initial(st: World)
  {
    && st.rows == map[] && st.chunks == map[] && st.procs == map[] && st.half == {}
    && 0 in st.used
    && forall p :: p in st.files ==> st.files[p].mtime in st.used && st.files[p].mtime != 0
  }

  // ---------------------------------------------------------------------------------------------
  // Soundness
  // ---------------------------------------------------------------------------------------------

  function ChunkRows(st: World, p: Path): seq<Row>
  {
    if p in st.chunks then st.chunks[p] else []
  }

  /** The recorded mtime is the file's: a refresh will skip the file. */
  predicate Current(st: World, p: Path)
  {
    p in st.rows && p in st.files && st.rows[p] == st.files[p].mtime
  }

  predicate Sound(c: Chunker, st: World, p: Path)
  {
    Current(st, p) ==> ChunkRows(st, p) == c.Rows(st.files[p].content, st.files[p].mtime)
  }

  predicate ProcOk(c: Chunker, st: World, q: Proc)
  {
    && ((q.Statted? || q.Opening? || q.Reading? || q.HasContent?) ==> q.mtime in st.used)
    && (q.Reading? && Unchanged(st, q.path, q.mtime) ==>
          |q.buf| <= c.limit && q.buf <= st.files[q.path].content)
    && (q.HasContent? && Unchanged(st, q.path, q.mtime) ==> q.content == Bounded(c, st.files[q.path].content))
  }

  ghost predicate Inv(c: Chunker, st: World)
  {
    && 0 in st.used
    && (forall p :: p in st.files ==> st.files[p].mtime in st.used && st.files[p].mtime != 0)
    && (forall p :: p in st.rows ==> st.rows[p] in st.used)
    && (forall id :: id in st.procs ==> ProcOk(c, st, st.procs[id]))
    && (forall p :: p !in st.half ==> Sound(c, st, p))
    && (forall p :: p in st.half ==> p !in st.chunks)
  }

  lemma BoundedTwice(c: Chunker, content: string)
    ensures Bounded(c, Bounded(c, content)) == Bounded(c, content)
  {
  }

  lemma NextKeepsInv(c: Chunker, st: World, a: Action)
    requires Inv(c, st) && Enabled(c, st, a)
    ensures Inv(c, Next(c, st, a))
  {
    var st' := Next(c, st, a);
    forall id | id in st'.procs
      ensures ProcOk(c, st', st'.procs[id])
    {
      NextKeepsProcOk(c, st, a, id);
    }
    forall p | p !in st'.half
      ensures Sound(c, st', p)
    {
      NextKeepsSound(c, st, a, p);
    }
  }

  lemma NextKeepsProcOk(c: Chunker, st: World, a: Action, id: ProcId)
    requires Inv(c, st) && Enabled(c, st, a) && id in Next(c, st, a).procs
    ensures ProcOk(c, Next(c, st, a), Next(c, st, a).procs[id])
  {
    if id in st.procs {
      assert ProcOk(c, st, st.procs[id]);
    }
  }

  lemma NextKeepsSound(c: Chunker, st: World, a: Action, p: Path)
    requires Inv(c, st) && Enabled(c, st, a) && p !in Next(c, st, a).half
    ensures Sound(c, Next(c, st, a), p)
  {
    if a.Commit? && st.procs[a.id].path == p {
      var q := st.procs[a.id];
      assert ProcOk(c, st, q);
      if Unchanged(st, p, q.mtime) {
        BoundedTwice(c, st.files[p].content);
      }
    } else if p !in st.half {
      assert Sound(c, st, p);
    }
  }

  lemma {:induction false} RunKeepsInv(c: Chunker, st: World, run: seq<Action>)
    requires Inv(c, st) && Possible(c, st, run)
    ensures Inv(c, After(c, st, run))
    decreases |run|
  {
    if run != [] {
      NextKeepsInv(c, st, run[0]);
      RunKeepsInv(c, Next(c, st, run[0]), run[1..]);
    }
  }

  /** The row stands for a file that has chunks, but a clean-up of the file when it was unreadable is, or
      died, between its two statements. */
  predicate Stripped(c: Chunker, st: World, p: Path)
  {
    p in st.half && Current(st, p) && c.Rows(st.files[p].content, st.files[p].mtime) != []
  }

  lemma InvIsSound(c: Chunker, st: World, p: Path)
    requires Inv(c, st)
    ensures Sound(c, st, p) <==> !Stripped(c, st, p)
  {
    if p !in st.half {
      assert Sound(c, st, p);
    } else {
      assert ChunkRows(st, p) == [];
    }
  }

  /** In every reachable state, with any number of indexers and crashes and any interleaving: a row that
      records the file's current mtime has exactly the chunks of the file's current content, except
      exactly where a half-done clean-up has stripped it. */
  lemma IndexIsSound(c: Chunker, st: World, run: seq<Action>, p: Path)
    requires Initial(st) && Possible(c, st, run)
    ensures Sound(c, After(c, st, run), p) <==> !Stripped(c, After(c, st, run), p)
  {
    RunKeepsInv(c, st, run);
    InvIsSound(c, After(c, st, run), p);
  }

  // ---------------------------------------------------------------------------------------------
  // Without clean-ups
  // ---------------------------------------------------------------------------------------------

  /** No indexer deletes the chunks of `p` as those of an unreadable file. */
  predicate NeverCleaned(c: Chunker, st: World, run: seq<Action>, p: Path)
    requires Possible(c, st, run)
    decreases |run|
  {
    run == [] ||
      (!(run[0].DeleteChunks? && st.procs[run[0].id].path == p) && NeverCleaned(c, Next(c, st, run[0]), run[1..], p))
  }

  lemma {:induction false} NeverCleanedNeverHalf(c: Chunker, st: World, run: seq<Action>, p: Path)
    requires Possible(c, st, run) && NeverCleaned(c, st, run, p) && p !in st.half
    ensures p !in After(c, st, run).half
    decreases |run|
  {
    if run != [] {
      NeverCleanedNeverHalf(c, Next(c, st, run[0]), run[1..], p);
    }
  }

  /** A path that is never cleaned up is sound, with any number of indexers. */
  lemma NeverCleanedIsSound(c: Chunker, st: World, run: seq<Action>, p: Path)
    requires Initial(st) && Possible(c, st, run) && NeverCleaned(c, st, run, p)
    ensures Sound(c, After(c, st, run), p)
  {
    NeverCleanedNeverHalf(c, st, run, p);
    IndexIsSound(c, st, run, p);
  }

  /** No program deletes the file or makes it unreadable. */
  predicate KeepsReadable(run: seq<Action>, p: Path)
  {
    forall k :: 0 <= k < |run| ==>
      match run[k]
      case WriteFile(q, f) => q == p ==> f.readable
      case DeleteFile(q) => q != p
      case SetReadable(q, r) => q == p ==> r
      case _ => true
  }

  ghost predicate StaysReadable(st: World, p: Path)
  {
    p in st.files && st.files[p].readable && forall id :: id in st.procs ==> st.procs[id] != Unreadable(p)
  }

  lemma {:induction false} ReadableIsNeverCleaned(c: Chunker, st: World, run: seq<Action>, p: Path)
    requires Possible(c, st, run) && KeepsReadable(run, p) && StaysReadable(st, p)
    ensures NeverCleaned(c, st, run, p)
    decreases |run|
  {
    if run != [] {
      assert KeepsReadable(run[1..], p) by {
        assert forall k :: 0 <= k < |run| - 1 ==> run[1..][k] == run[k + 1];
      }
      StepKeepsReadable(c, st, run[0], p, run);
      ReadableIsNeverCleaned(c, Next(c, st, run[0]), run[1..], p);
    }
  }

  lemma StepKeepsReadable(c: Chunker, st: World, a: Action, p: Path, run: seq<Action>)
    requires Enabled(c, st, a) && StaysReadable(st, p) && run != [] && run[0] == a && KeepsReadable(run, p)
    ensures StaysReadable(Next(c, st, a), p)
  {
    assert match run[0]
      case WriteFile(q, f) => q == p ==> f.readable
      case DeleteFile(q) => q != p
      case SetReadable(q, r) => q == p ==> r
      case _ => true;
  }

  /** So a file that exists from the start, is rewritten at will, and is neither deleted nor made
      unreadable, is sound with any number of indexers. */
  lemma ReadableFileIsSound(c: Chunker, st: World, run: seq<Action>, p: Path)
    requires Initial(st) && Possible(c, st, run)
    requires p in st.files && st.files[p].readable && KeepsReadable(run, p)
    ensures Sound(c, After(c, st, run), p)
  {
    ReadableIsNeverCleaned(c, st, run, p);
    NeverCleanedIsSound(c, st, run, p);
  }

  // ---------------------------------------------------------------------------------------------
  // One indexer
  // ---------------------------------------------------------------------------------------------

  /** Only writers and the indexer `id` act. */
  predicate Solo(run: seq<Action>, id: ProcId)
  {
    forall k :: 0 <= k < |run| ==> ByOrWriter(run[k], id)
  }

  predicate ByOrWriter(a: Action, id: ProcId)
  {
    a.WriteFile? || a.DeleteFile? || a.SetReadable? || a.id == id
  }

  /** Past the comparison an indexer works on a file whose recorded mtime is not the file's. */
  predicate StaleOk(st: World, q: Proc)
  {
    match q
    case Idle => true
    case Probed(_) => true
    case Statted(p, m) => Current(st, p) ==> st.rows[p] == m
    case Opening(p, _) => !Current(st, p)
    case Reading(p, _, _) => !Current(st, p)
    case HasContent(p, _, _) => !Current(st, p)
    case Unreadable(p) => !Current(st, p)
    case ChunksDeleted(p) => !Current(st, p)
  }

  ghost predicate SoloInv(c: Chunker, st: World, id: ProcId)
  {
    && Inv(c, st)
    && StaleOk(st, ProcOf(st, id))
    && forall p :: p in st.half ==> !Current(st, p)
  }

  lemma NextKeepsSoloInv(c: Chunker, st: World, a: Action, id: ProcId)
    requires SoloInv(c, st, id) && Enabled(c, st, a) && ByOrWriter(a, id)
    ensures SoloInv(c, Next(c, st, a), id)
  {
    NextKeepsInv(c, st, a);
    var st' := Next(c, st, a);
    forall p | p in st'.half
      ensures !Current(st', p)
    {
      if p in st.half {
        assert !Current(st, p);
      }
    }
  }

  lemma {:induction false} RunKeepsSoloInv(c: Chunker, st: World, run: seq<Action>, id: ProcId)
    requires SoloInv(c, st, id) && Possible(c, st, run) && Solo(run, id)
    ensures SoloInv(c, After(c, st, run), id)
    decreases |run|
  {
    if run != [] {
      assert ByOrWriter(run[0], id);
      forall k | 0 <= k < |run[1..]|
        ensures ByOrWriter(run[1..][k], id)
      {
        assert run[1..][k] == run[k + 1];
      }
      NextKeepsSoloInv(c, st, run[0], id);
      RunKeepsSoloInv(c, Next(c, st, run[0]), run[1..], id);
    }
  }

  /** With one indexer at a time the exception disappears: whatever the writers do and wherever the
      indexer dies, every row that records the file's current mtime is exact. */
  lemma SoleIndexerIsAlwaysSound(c: Chunker, st: World, run: seq<Action>, id: ProcId, p: Path)
    requires Initial(st) && Possible(c, st, run) && Solo(run, id)
    ensures Sound(c, After(c, st, run), p)
  {
    RunKeepsSoloInv(c, st, run, id);
    if p in After(c, st, run).half {
      assert !Current(After(c, st, run), p);
    }
  }

  /** So a skip is right: when a comparison finds the recorded mtime equal and the file has not been
      rewritten since its mtime was taken, the index holds what re-chunking the file would give, except
      exactly where a half-done clean-up has stripped it. */
  lemma SkipsAreSound(c: Chunker, st: World, run: seq<Action>, id: ProcId)
    requires Initial(st) && Possible(c, st, run)
    requires var q := ProcOf(After(c, st, run), id); q.Statted? && Unchanged(After(c, st, run), q.path, q.mtime)
    ensures
      var now := After(c, st, run);
      var q := ProcOf(now, id);
      ProcOf(Next(c, now, Compare(id)), id).Idle? ==>
        (ChunkRows(now, q.path) == c.Rows(now.files[q.path].content, q.mtime) <==> !Stripped(c, now, q.path))
  {
    IndexIsSound(c, st, run, ProcOf(After(c, st, run), id).path);
  }

  // ---------------------------------------------------------------------------------------------
  // Two indexers
  // ---------------------------------------------------------------------------------------------

  /** The file system at the start of the run below: one file whose mtime is 1. */
  function OneFile(p: Path, text: string): World
  {
    World(map[p := File(1, text, true)], {0, 1}, map[], map[], map[], {})
  }

  /** Without that restriction it can fail for good.  Indexer 0 finds the file gone when it opens it;
      the file is written anew and indexer 1 indexes it; indexer 0 then deletes the new chunks and
      dies before it deletes the row.  Every later refresh skips the file, which has no chunks. */
  lemma TwoIndexersCanLoseChunks(c: Chunker, p: Path, text: string) returns (run: seq<Action>)
    requires c.Rows(text, 2) != []
    ensures Initial(OneFile(p, text)) && Possible(c, OneFile(p, text), run)
    ensures Current(After(c, OneFile(p, text), run), p) && ChunkRows(After(c, OneFile(p, text), run), p) == []
    ensures !Sound(c, After(c, OneFile(p, text), run), p)
  {
    var s0 := OneFile(p, text);
    run := AfterRewriting(c, p, text);
    run := Rewriting(c, p, text, run);
    run := LosingTheFile(c, s0, 0, p, run);
    run := OpeningRun(c, s0, 0, p, run);
    ChunksLost(c, After(c, s0, run), p, text);
  }

  lemma ChunksLost(c: Chunker, st: World, p: Path, text: string)
    requires c.Rows(text, 2) != [] && st.rows == map[p := 2] && st.files == map[p := File(2, text, true)] && ChunkRows(st, p) == []
    ensures Current(st, p) && !Sound(c, st, p)
  {
  }

  lemma Rewriting(c: Chunker, p: Path, text: string, rest: seq<Action>) returns (run: seq<Action>)
    requires Possible(c, Rewritten(p, text), rest)
    ensures Possible(c, With(Lost(p, text), 0, Unreadable(p)), run)
    ensures After(c, With(Lost(p, text), 0, Unreadable(p)), run) == After(c, Rewritten(p, text), rest)
  {
    run := StepTo(c, With(Lost(p, text), 0, Unreadable(p)), WriteFile(p, File(2, text, true)), Rewritten(p, text), rest);
  }

  lemma AfterRewriting(c: Chunker, p: Path, text: string) returns (run: seq<Action>)
    ensures Possible(c, Rewritten(p, text), run)
    ensures After(c, Rewritten(p, text), run).rows == map[p := 2]
    ensures After(c, Rewritten(p, text), run).files == map[p := File(2, text, true)]
    ensures ChunkRows(After(c, Rewritten(p, text), run), p) == []
  {
    run := LateCleanUp(c, Indexed(c, Rewritten(p, text), 1, p), 0, p);
    run := IndexingRun(c, Rewritten(p, text), 1, p, run);
  }

  function Lost(p: Path, text: string): World
  {
    OneFile(p, text).(files := OneFile(p, text).files - {p})
  }

  /** The file is back with a fresh mtime, while indexer 0 is about to clean up. */
  function Rewritten(p: Path, text: string): World
  {
    World(map[p := File(2, text, true)], {0, 1, 2}, map[], map[], map[0 := Unreadable(p)], {})
  }

  lemma LosingTheFile(c: Chunker, st: World, id: ProcId, p: Path, rest: seq<Action>) returns (run: seq<Action>)
    requires p in st.files
    requires Possible(c, With(st.(files := st.files - {p}), id, Unreadable(p)), rest)
    ensures Possible(c, With(st, id, Opening(p, st.files[p].mtime)), run)
    ensures After(c, With(st, id, Opening(p, st.files[p].mtime)), run)
      == After(c, With(st.(files := st.files - {p}), id, Unreadable(p)), rest)
  {
    var q, gone := Opening(p, st.files[p].mtime), st.(files := st.files - {p});
    WithTwice(gone, id, q, Unreadable(p));
    run := StepTo(c, With(gone, id, q), Open(id), With(gone, id, Unreadable(p)), rest);
    run := StepTo(c, With(st, id, q), DeleteFile(p), With(gone, id, q), run);
  }

  lemma LateCleanUp(c: Chunker, st: World, id: ProcId, p: Path) returns (run: seq<Action>)
    requires ProcOf(st, id) == Unreadable(p)
    ensures Possible(c, st, run)
    ensures After(c, st, run).rows == st.rows && After(c, st, run).files == st.files && ChunkRows(After(c, st, run), p) == []
  {
    assert [Crash(id)][1..] == [];
    run := StepTo(c, st, DeleteChunks(id), Next(c, st, DeleteChunks(id)), [Crash(id)]);
  }

  function With(st: World, id: ProcId, q: Proc): World
  {
    st.(procs := st.procs[id := q])
  }

  lemma WithTwice(st: World, id: ProcId, q: Proc, r: Proc)
    ensures With(With(st, id, q), id, r) == With(st, id, r)
  {
  }

  /** An action of indexer `id`, other than dying. */
  predicate Works(a: Action, id: ProcId)
  {
    !a.WriteFile? && !a.DeleteFile? && !a.SetReadable? && !a.Crash? && a.id == id
  }

  predicate OnlyWorks(run: seq<Action>, id: ProcId)
  {
    forall k :: 0 <= k < |run| ==> Works(run[k], id)
  }

  /** `a` leads from `st` to `next`; what is possible from there is possible after `a`. */
  lemma StepTo(c: Chunker, st: World, a: Action, next: World, rest: seq<Action>) returns (run: seq<Action>)
    requires Enabled(c, st, a) && Next(c, st, a) == next && Possible(c, next, rest)
    ensures run == [a] + rest && Possible(c, st, run) && After(c, st, run) == After(c, next, rest)
    ensures forall id :: OnlyWorks(rest, id) && Works(a, id) ==> OnlyWorks(run, id)
  {
    run := [a] + rest;
    assert run[1..] == rest;
  }

  lemma OpeningRun(c: Chunker, st: World, id: ProcId, p: Path, rest: seq<Action>) returns (run: seq<Action>)
    requires ProcOf(st, id).Idle? && p in st.files && !Current(st, p)
    requires Possible(c, With(st, id, Opening(p, st.files[p].mtime)), rest)
    ensures Possible(c, st, run)
    ensures After(c, st, run) == After(c, With(st, id, Opening(p, st.files[p].mtime)), rest)
    ensures OnlyWorks(rest, id) ==> OnlyWorks(run, id)
  {
    var m := st.files[p].mtime;
    WithTwice(st, id, Statted(p, m), Opening(p, m));
    run := StepTo(c, With(st, id, Statted(p, m)), Compare(id), With(st, id, Opening(p, m)), rest);
    WithTwice(st, id, Probed(p), Statted(p, m));
    run := StepTo(c, With(st, id, Probed(p)), TakeMtime(id), With(st, id, Statted(p, m)), run);
    run := StepTo(c, st, Probe(id, p), With(st, id, Probed(p)), run);
  }

  lemma ReadingRun(c: Chunker, st: World, id: ProcId, p: Path, rest: seq<Action>) returns (run: seq<Action>)
    requires p in st.files && st.files[p].readable
    requires Possible(c, With(st, id, HasContent(p, st.files[p].mtime, Bounded(c, st.files[p].content))), rest)
    ensures Possible(c, With(st, id, Opening(p, st.files[p].mtime)), run)
    ensures After(c, With(st, id, Opening(p, st.files[p].mtime)), run)
      == After(c, With(st, id, HasContent(p, st.files[p].mtime, Bounded(c, st.files[p].content))), rest)
    ensures OnlyWorks(rest, id) ==> OnlyWorks(run, id)
  {
    var m, piece := st.files[p].mtime, Bounded(c, st.files[p].content);
    WithTwice(st, id, Reading(p, m, piece), HasContent(p, m, piece));
    run := StepTo(c, With(st, id, Reading(p, m, piece)), FinishRead(id), With(st, id, HasContent(p, m, piece)), rest);
    WithTwice(st, id, Reading(p, m, ""), Reading(p, m, piece));
    assert "" + piece == piece;
    run := StepTo(c, With(st, id, Reading(p, m, "")), ReadPiece(id, piece), With(st, id, Reading(p, m, piece)), run);
    WithTwice(st, id, Opening(p, m), Reading(p, m, ""));
    run := StepTo(c, With(st, id, Opening(p, m)), Open(id), With(st, id, Reading(p, m, "")), run);
  }

  function Indexed(c: Chunker, st: World, id: ProcId, p: Path): World
    requires p in st.files
  {
    st.(rows := st.rows[p := st.files[p].mtime],
        chunks := st.chunks[p := c.Rows(st.files[p].content, st.files[p].mtime)],
        procs := st.procs[id := Idle],
        half := st.half - {p})
  }

  /** An indexer nobody disturbs leaves the file's mtime and chunks in the tables. */
  lemma IndexingRun(c: Chunker, st: World, id: ProcId, p: Path, rest: seq<Action>) returns (run: seq<Action>)
    requires ProcOf(st, id).Idle? && p in st.files && st.files[p].readable && !Current(st, p)
    requires Possible(c, Indexed(c, st, id, p), rest)
    ensures Possible(c, st, run) && After(c, st, run) == After(c, Indexed(c, st, id, p), rest)
    ensures OnlyWorks(rest, id) ==> OnlyWorks(run, id)
  {
    var m, piece := st.files[p].mtime, Bounded(c, st.files[p].content);
    BoundedTwice(c, st.files[p].content);
    run := StepTo(c, With(st, id, HasContent(p, m, piece)), Commit(id), Indexed(c, st, id, p), rest);
    run := ReadingRun(c, st, id, p, run);
    run := OpeningRun(c, st, id, p, run);
  }

  // ---------------------------------------------------------------------------------------------
  // A whole refresh
  // ---------------------------------------------------------------------------------------------

  /** What an undisturbed visit of one path leaves. */
  function Visited(c: Chunker, st: World, id: ProcId, p: Path): World
  {
    if p !in st.files || Current(st, p) then With(st, id, Idle)
    else if st.files[p].readable then Indexed(c, st, id, p)
    else st.(rows := st.rows - {p}, chunks := st.chunks - {p}, procs := st.procs[id := Idle], half := st.half - {p})
  }

  lemma SkippingRun(c: Chunker, st: World, id: ProcId, p: Path, rest: seq<Action>) returns (run: seq<Action>)
    requires ProcOf(st, id).Idle? && p in st.files && Current(st, p)
    requires Possible(c, With(st, id, Idle), rest)
    ensures Possible(c, st, run) && After(c, st, run) == After(c, With(st, id, Idle), rest)
    ensures OnlyWorks(rest, id) ==> OnlyWorks(run, id)
  {
    var m := st.files[p].mtime;
    WithTwice(st, id, Statted(p, m), Idle);
    run := StepTo(c, With(st, id, Statted(p, m)), Compare(id), With(st, id, Idle), rest);
    WithTwice(st, id, Probed(p), Statted(p, m));
    run := StepTo(c, With(st, id, Probed(p)), TakeMtime(id), With(st, id, Statted(p, m)), run);
    run := StepTo(c, st, Probe(id, p), With(st, id, Probed(p)), run);
  }

  lemma CleaningRun(c: Chunker, st: World, id: ProcId, p: Path, rest: seq<Action>) returns (run: seq<Action>)
    requires ProcOf(st, id).Idle? && p in st.files && !st.files[p].readable && !Current(st, p)
    requires Possible(c, Visited(c, st, id, p), rest)
    ensures Possible(c, st, run) && After(c, st, run) == After(c, Visited(c, st, id, p), rest)
    ensures OnlyWorks(rest, id) ==> OnlyWorks(run, id)
  {
    var m, half := st.files[p].mtime, st.(chunks := st.chunks - {p}, half := st.half + {p});
    HalfDone(st, id, p);
    run := StepTo(c, With(half, id, ChunksDeleted(p)), DeleteRow(id), Visited(c, st, id, p), rest);
    run := StepTo(c, With(st, id, Unreadable(p)), DeleteChunks(id), With(half, id, ChunksDeleted(p)), run);
    WithTwice(st, id, Opening(p, m), Unreadable(p));
    run := StepTo(c, With(st, id, Opening(p, m)), Open(id), With(st, id, Unreadable(p)), run);
    run := OpeningRun(c, st, id, p, run);
  }

  lemma HalfDone(st: World, id: ProcId, p: Path)
    ensures st.half + {p} - {p} == st.half - {p}
    ensures st.procs[id := ChunksDeleted(p)][id := Idle] == st.procs[id := Idle]
    ensures st.procs[id := Unreadable(p)][id := ChunksDeleted(p)] == st.procs[id := ChunksDeleted(p)]
  {
  }

  lemma VisitingRun(c: Chunker, st: World, id: ProcId, p: Path, rest: seq<Action>) returns (run: seq<Action>)
    requires ProcOf(st, id).Idle? && Possible(c, Visited(c, st, id, p), rest)
    ensures Possible(c, st, run) && After(c, st, run) == After(c, Visited(c, st, id, p), rest)
    ensures OnlyWorks(rest, id) ==> OnlyWorks(run, id)
  {
    if p !in st.files {
      run := StepTo(c, st, Probe(id, p), With(st, id, Idle), rest);
    } else if Current(st, p) {
      run := SkippingRun(c, st, id, p, rest);
    } else if st.files[p].readable {
      run := IndexingRun(c, st, id, p, rest);
    } else {
      run := CleaningRun(c, st, id, p, rest);
    }
  }

  function AllVisited(c: Chunker, st: World, id: ProcId, paths: seq<Path>): World
    decreases |paths|
  {
    if paths == [] then st else AllVisited(c, Visited(c, st, id, paths[0]), id, paths[1..])
  }

  /** Visiting the paths in turn is a run of the protocol in which one indexer alone works. */
  lemma {:induction false} AllVisitedIsARun(c: Chunker, st: World, id: ProcId, paths: seq<Path>) returns (run: seq<Action>)
    requires ProcOf(st, id).Idle?
    ensures Possible(c, st, run) && OnlyWorks(run, id) && After(c, st, run) == AllVisited(c, st, id, paths)
    decreases |paths|
  {
    if paths == [] {
      run := [];
    } else {
      var rest := AllVisitedIsARun(c, Visited(c, st, id, paths[0]), id, paths[1..]);
      run := VisitingRun(c, st, id, paths[0], rest);
    }
  }
}
