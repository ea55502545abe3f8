/** Reading the end of a JSONL log, from one file or across its backups. */
module JsonlTail {
  import opened Text
  import opened FileSystem
  import opened JsonlLog

  // ---------------------------------------------------------------------------------------------
  // One file
  // ---------------------------------------------------------------------------------------------

  /** The last `maxBytes` bytes; when something was cut off, without everything up to the first line
      feed. */
  function TailOf(content: string, maxBytes: nat): (tail: string)
    ensures |tail| <= maxBytes
  {
    if |content| <= maxBytes then content else AfterLineFeed(content[|content| - maxBytes..])
  }

  function AfterLineFeed(buf: string): string
  {
    var nl := FirstIndex(buf, '\n');
    if nl < |buf| then buf[nl + 1..] else ""
  }

  /** `content[k..]` starts at a line boundary; the end of the content is one. */
  predicate LineStart(content: string, k: nat)
    requires k <= |content|
  {
    k == 0 || k == |content| || content[k - 1] == '\n'
  }

  /** Where the tail starts when something is cut off. */
  function TailStart(content: string, cut: nat): nat
    requires cut <= |content|
  {
    var nl := FirstIndex(content[cut..], '\n');
    if nl < |content[cut..]| then cut + nl + 1 else |content|
  }

  lemma TailFromStart(content: string, maxBytes: nat)
    requires 0 < maxBytes < |content|
    ensures
      var k := TailStart(content, |content| - maxBytes);
      |content| - maxBytes < k <= |content| && TailOf(content, maxBytes) == content[k..] && LineStart(content, k)
  {
    var cut := |content| - maxBytes;
    var buf := content[cut..];
    var nl := FirstIndex(buf, '\n');
    if nl < |buf| {
      assert content[cut + nl] == buf[nl];
      assert buf[nl + 1..] == content[cut + nl + 1..];
    }
  }

  lemma NoLineStartBefore(content: string, cut: nat, j: nat)
    requires cut <= |content| && cut < j < TailStart(content, cut)
    ensures j < |content| && !LineStart(content, j)
  {
    var buf := content[cut..];
    if content[j - 1] == '\n' {
      FirstIndexAtMost(buf, '\n', j - 1 - cut);
    }
  }

  /** The whole content when it fits; otherwise the longest line-aligned suffix shorter than
      `maxBytes`.  For `maxBytes == 0` no suffix is shorter and the result is empty. */
  lemma TailIsLongestAlignedSuffix(content: string, maxBytes: nat)
    ensures |content| <= maxBytes ==> TailOf(content, maxBytes) == content
    ensures 0 < maxBytes < |content| ==>
      var k := |content| - |TailOf(content, maxBytes)|;
      0 <= k && TailOf(content, maxBytes) == content[k..] && LineStart(content, k)
      && |content| - k < maxBytes
      && forall j :: 0 <= j < k && LineStart(content, j) ==> |content| - j >= maxBytes
    ensures maxBytes == 0 ==> TailOf(content, maxBytes) == ""
  {
    if 0 < maxBytes < |content| {
      var cut := |content| - maxBytes;
      TailFromStart(content, maxBytes);
      forall j | cut < j < TailStart(content, cut)
        ensures !LineStart(content, j)
      {
        NoLineStartBefore(content, cut, j);
      }
    }
  }

  // ---------------------------------------------------------------------------------------------
  // Several files
  // ---------------------------------------------------------------------------------------------

  /** `tail` is what is read of a file with some bytes of budget left, `join` puts a chunk before text. */
  datatype Tails = Tails(tail: (nat, nat) -> string, join: (string, string) -> string)

  ghost predicate WithinBudget(tails: Tails)
  {
    forall i, budget :: |tails.tail(i, budget)| <= budget
  }

  function TailsOf(fs: Files, kind: LogKind): Tails
  {
    Tails((i: nat, budget: nat) => TailOf(Content(fs, kind, i), budget), Prepend)
  }

  lemma TailsFit(fs: Files, kind: LogKind)
    ensures WithinBudget(TailsOf(fs, kind))
  {
  }

  /** What is read from files i, i+1, ..., want-1, file by file. */
  function Chunks(tails: Tails, i: nat, want: nat, budget: nat): seq<string>
    requires WithinBudget(tails)
    decreases want - i
  {
    if i >= want || budget == 0 then []
    else [tails.tail(i, budget)] + Chunks(tails, i + 1, want, budget - |tails.tail(i, budget)|)
  }

  /** One chunk put before what newer files gave. */
  function Prepend(chunk: string, newer: string): string
  {
    if chunk == "" then newer
    else if newer != "" && chunk[|chunk| - 1] != '\n' then chunk + "\n" + newer
    else chunk + newer
  }

  /** Chunks of ever older files put before `newer`. */
  function Assemble(chunks: seq<string>, newer: string): string
  {
    if chunks == [] then newer else Assemble(chunks[1..], Prepend(chunks[0], newer))
  }

  function WantFiles(maxFiles: nat): nat
  {
    if maxFiles == 0 then 1 else maxFiles
  }

  /** What the reader returns when it has `text` already and goes on at file i. */
  function Read(tails: Tails, i: nat, want: nat, budget: nat, text: string): string
    requires WithinBudget(tails)
    decreases want - i
  {
    if i >= want || budget == 0 then text
    else
      var chunk := tails.tail(i, budget);
      Read(tails, i + 1, want, budget - |chunk|, tails.join(chunk, text))
  }

  function ReadTails(fs: Files, kind: LogKind, maxBytes: nat, maxFiles: nat): string
  {
    TailsFit(fs, kind);
    Read(TailsOf(fs, kind), 0, WantFiles(maxFiles), maxBytes, "")
  }

  lemma AssembleCons(chunk: string, older: seq<string>, text: string)
    ensures Assemble([chunk] + older, text) == Assemble(older, Prepend(chunk, text))
  {
    assert ([chunk] + older)[1..] == older;
  }

  /** Reading takes the chunks and puts them together. */
  lemma {:induction false} ReadAssembles(tails: Tails, i: nat, want: nat, budget: nat, text: string)
    requires WithinBudget(tails) && tails.join == Prepend
    ensures Read(tails, i, want, budget, text) == Assemble(Chunks(tails, i, want, budget), text)
    decreases want - i
  {
    if i < want && budget > 0 {
      var chunk := tails.tail(i, budget);
      ReadAssembles(tails, i + 1, want, budget - |chunk|, Prepend(chunk, text));
      AssembleCons(chunk, Chunks(tails, i + 1, want, budget - |chunk|), text);
    }
  }

  /** One round of the reader: the next chunk goes in front and its length off the budget. */
  lemma ReadStep(goal: string, tails: Tails, i: nat, want: nat, budget: nat, text: string, chunk: string)
    requires WithinBudget(tails) && NothingBefore(tails)
    requires i < want && goal == Read(tails, i, want, budget, text) && chunk == tails.tail(i, budget)
    ensures |chunk| <= budget && goal == Read(tails, i + 1, want, budget - |chunk|, tails.join(chunk, text))
    ensures chunk == "" ==> goal == Read(tails, i + 1, want, budget, text)
  {
  }

  ghost predicate NothingBefore(tails: Tails)
  {
    forall text :: tails.join("", text) == text
  }

  lemma TailCases(content: string, maxBytes: nat)
    ensures |content| <= maxBytes ==> TailOf(content, maxBytes) == content
    ensures |content| > maxBytes ==> TailOf(content, maxBytes) == AfterLineFeed(content[|content| - maxBytes..])
  {
  }

  method CutTail(content: string, maxBytes: nat) returns (text: string)
    ensures text == TailOf(content, maxBytes)
  {
    var start := Max(0, |content| - maxBytes);
    text := content[start..];
    if start > 0 {
      var nl := FirstIndex(text, '\n');
      text := if nl < |text| then text[nl + 1..] else "";
    }
  }

  method ReadTailFile(disk: Disk, kind: LogKind, i: nat, maxBytes: nat) returns (text: string)
    ensures text == TailOf(Content(disk.files, kind, i), maxBytes)
  {
    if Log(kind, i) !in disk.files {
      TailCases("", maxBytes);
      return "";
    }
    text := CutTail(disk.files[Log(kind, i)], maxBytes);
  }

  /** Puts an older chunk in front, completing its last line. */
  method PutBefore(chunk: string, text: string) returns (r: string)
    requires chunk != ""
    ensures r == Prepend(chunk, text)
  {
    r := chunk;
    if text != "" && chunk[|chunk| - 1] != '\n' {
      r := r + "\n";
    }
    r := r + text;
  }

  /** `tails` is what reading the files of this log gives. */
  ghost predicate Serves(tails: Tails, fs: Files, kind: LogKind)
  {
    && WithinBudget(tails) && NothingBefore(tails)
    && (forall i: nat, budget: nat {:trigger TailOf(Content(fs, kind, i), budget)} ::
      tails.tail(i, budget) == TailOf(Content(fs, kind, i), budget))
    && (forall chunk, text {:trigger Prepend(chunk, text)} :: tails.join(chunk, text) == Prepend(chunk, text))
  }

  method ReadFiles(disk: Disk, kind: LogKind, maxBytes: nat, wantFiles: nat, ghost tails: Tails) returns (text: string)
    requires wantFiles > 0 && Serves(tails, disk.files, kind)
    ensures text == Read(tails, 0, wantFiles, maxBytes, "")
  {
    ghost var goal := Read(tails, 0, wantFiles, maxBytes, "");
    var chunk := ReadTailFile(disk, kind, 0, maxBytes);
    ReadStep(goal, tails, 0, wantFiles, maxBytes, "", chunk);
    var remaining := if maxBytes > |chunk| then maxBytes - |chunk| else 0;
    text := chunk;
    assert Prepend(chunk, "") == chunk;
    var i := 1;
    while i < wantFiles && remaining > 0
      invariant 1 <= i <= wantFiles && 0 <= remaining && goal == Read(tails, i, wantFiles, remaining, text)
      decreases wantFiles - i
    {
      chunk := ReadTailFile(disk, kind, i, remaining);
      ReadStep(goal, tails, i, wantFiles, remaining, text, chunk);
      i := i + 1;
      if chunk == "" {
        continue;
      }
      ghost var joined, left := tails.join(chunk, text), remaining - |chunk|;
      remaining := if remaining > |chunk| then remaining - |chunk| else 0;
      text := PutBefore(chunk, text);
      assert remaining == left && text == joined;
    }
  }

  method ReadTailMulti(disk: Disk, kind: LogKind, maxBytes: nat, maxFiles: nat) returns (text: string)
    ensures text == ReadTails(disk.files, kind, maxBytes, maxFiles)
  {
    TailsFit(disk.files, kind);
    TailsServe(disk.files, kind);
    text := ReadFiles(disk, kind, maxBytes, if maxFiles == 0 then 1 else maxFiles, TailsOf(disk.files, kind));
  }

  lemma TailsServe(fs: Files, kind: LogKind)
    ensures Serves(TailsOf(fs, kind), fs, kind)
  {
  }

  /** The byte limit relies on terminated files: a backup without its last line feed is completed
      after the budget was charged.  A crash after two bytes, then an append that rotates, leave one. */
  lemma UnterminatedBackupExceedsBudget()
    ensures
      var fs := After(map[], LogConfig(3, 2, 0), Audit, [Call("ab", Written(2)), Call("c", Written(2))]);
      |ReadTails(fs, Audit, 4, 2)| == 5
  {
    var cfg, calls := LogConfig(3, 2, 0), [Call("ab", Written(2)), Call("c", Written(2))];
    var fs: Files := map[Log(Audit, 0) := "c\n", Log(Audit, 1) := "ab"];
    TornDirectory();
    var tails := TailsOf(fs, Audit);
    TailsFit(fs, Audit);
    TailCases("c\n", 4);
    TailCases("ab", 2);
    TailsServe(fs, Audit);
    assert tails.tail(0, 4) == TailOf("c\n", 4) && tails.tail(1, 2) == TailOf("ab", 2);
    var goal := ReadTails(fs, Audit, 4, 2);
    assert Prepend("c\n", "") == "c\n" && Prepend("ab", "c\n") == "ab\nc\n";
    ReadStep(goal, tails, 0, 2, 4, "", "c\n");
    ReadStep(goal, tails, 1, 2, 2, "c\n", "ab");
  }

  lemma TornDirectory()
    ensures After(map[], LogConfig(3, 2, 0), Audit, [Call("ab", Written(2)), Call("c", Written(2))]) ==
      map[Log(Audit, 0) := "c\n", Log(Audit, 1) := "ab"]
  {
    var cfg, first, second := LogConfig(3, 2, 0), Call("ab", Written(2)), Call("c", Written(2));
    assert [first, second][..1] == [first] && [first][..0] == [];
    FirstCall();
    SecondCall();
  }

  lemma FirstCall()
    ensures AfterCall(map[], LogConfig(3, 2, 0), Audit, "ab", Written(2)) == map[Log(Audit, 0) := "ab"]
  {
    var empty: Files := map[];
    assert Content(empty, Audit, 0) == "" && Piece("ab", 2) == "ab" && "" + "ab" == "ab";
    assert Room(empty, LogConfig(3, 2, 0), Audit, "ab") == empty;
  }

  lemma SecondCall()
    ensures AfterCall(map[Log(Audit, 0) := "ab"], LogConfig(3, 2, 0), Audit, "c", Written(2)) ==
      map[Log(Audit, 0) := "c\n", Log(Audit, 1) := "ab"]
  {
    var torn: Files := map[Log(Audit, 0) := "ab"];
    assert Content(torn, Audit, 0) == "ab" && Piece("c", 2) == "c\n" && "" + "c\n" == "c\n";
    assert Shifted(torn, Audit, 1, 1) == torn;
    assert Shifted(torn, Audit, 0, 1) == map[Log(Audit, 1) := "ab"];
    assert Room(torn, LogConfig(3, 2, 0), Audit, "c") == map[Log(Audit, 1) := "ab"];
  }

  predicate Terminated(text: string)
  {
    text == "" || text[|text| - 1] == '\n'
  }

  /** Some file from lo to hi - 1 is not empty. */
  ghost predicate SomeText(fs: Files, kind: LogKind, lo: nat, hi: nat)
  {
    exists j: nat :: lo <= j < hi && Content(fs, kind, j) != ""
  }

  /** A backup without its last line feed, behind newer text. */
  ghost predicate TornBackup(fs: Files, kind: LogKind, i: nat)
  {
    !Terminated(Content(fs, kind, i)) && SomeText(fs, kind, 0, i)
  }

  ghost predicate KeepsLimit(fs: Files, kind: LogKind)
  {
    forall maxBytes: nat, maxFiles: nat :: |ReadTails(fs, kind, maxBytes, maxFiles)| <= maxBytes
  }

  /** Exactly such backups break the byte limit. */
  lemma LimitKeptIffNoTornBackup(fs: Files, kind: LogKind)
    ensures KeepsLimit(fs, kind) <==> NoTornBackup(fs, kind)
  {
    TailsFit(fs, kind);
    if i: nat :| TornBackup(fs, kind, i) {
      WholeRead(fs, kind, 0, i, "");
      assert |ReadTails(fs, kind, SizeFrom(fs, kind, 0, i), i + 1)| > SizeFrom(fs, kind, 0, i);
    } else {
      forall maxBytes: nat, maxFiles: nat
        ensures |ReadTails(fs, kind, maxBytes, maxFiles)| <= maxBytes
      {
        TailsServe(fs, kind);
        ReadFits(fs, kind, TailsOf(fs, kind), 0, WantFiles(maxFiles), maxBytes, "");
      }
    }
  }

  lemma TailKeepsEnd(content: string, maxBytes: nat)
    ensures Terminated(content) ==> Terminated(TailOf(content, maxBytes))
    ensures TailOf(content, maxBytes) != "" ==> content != ""
  {
    TailIsLongestAlignedSuffix(content, maxBytes);
  }

  ghost predicate NoTornBackup(fs: Files, kind: LogKind)
  {
    forall i: nat :: !TornBackup(fs, kind, i)
  }

  ghost predicate TextBefore(fs: Files, kind: LogKind, i: nat, text: string)
  {
    text != "" ==> SomeText(fs, kind, 0, i)
  }

  lemma {:induction false} ReadFits(
    fs: Files, kind: LogKind, tails: Tails, i: nat, want: nat, budget: nat, text: string)
    requires WithinBudget(tails) && Serves(tails, fs, kind)
    requires NoTornBackup(fs, kind) && TextBefore(fs, kind, i, text)
    ensures |Read(tails, i, want, budget, text)| <= |text| + budget
    decreases want - i
  {
    if i < want && budget > 0 {
      var chunk := tails.tail(i, budget);
      OneRoundFits(fs, kind, tails, i, budget, text);
      ReadFits(fs, kind, tails, i + 1, want, budget - |chunk|, tails.join(chunk, text));
    }
  }

  lemma OneRoundFits(fs: Files, kind: LogKind, tails: Tails, i: nat, budget: nat, text: string)
    requires Serves(tails, fs, kind) && NoTornBackup(fs, kind) && TextBefore(fs, kind, i, text)
    ensures
      var chunk := tails.tail(i, budget);
      var joined := tails.join(chunk, text);
      |joined| == |chunk| + |text| && TextBefore(fs, kind, i + 1, joined)
  {
    var content := Content(fs, kind, i);
    var chunk := TailOf(content, budget);
    assert tails.tail(i, budget) == chunk && tails.join(chunk, text) == Prepend(chunk, text);
    assert !TornBackup(fs, kind, i);
    TailKeepsEnd(content, budget);
    PrependFits(chunk, text);
    if Prepend(chunk, text) != "" {
      SomeTextGrows(fs, kind, i);
    }
  }

  lemma PrependFits(chunk: string, text: string)
    requires Terminated(chunk) || text == ""
    ensures |Prepend(chunk, text)| == |chunk| + |text|
  {
  }

  lemma SomeTextGrows(fs: Files, kind: LogKind, i: nat)
    requires Content(fs, kind, i) != "" || SomeText(fs, kind, 0, i)
    ensures SomeText(fs, kind, 0, i + 1)
  {
  }

  function SizeFrom(fs: Files, kind: LogKind, i: nat, last: nat): nat
    decreases last - i
  {
    if i > last then 0 else |Content(fs, kind, i)| + SizeFrom(fs, kind, i + 1, last)
  }

  /** With a limit of just their size all files up to an unterminated one are read whole. */
  lemma {:induction false} WholeRead(fs: Files, kind: LogKind, i: nat, last: nat, text: string)
    requires WithinBudget(TailsOf(fs, kind)) && i <= last && !Terminated(Content(fs, kind, last))
    ensures
      var r := Read(TailsOf(fs, kind), i, last + 1, SizeFrom(fs, kind, i, last), text);
      |r| >= |text| + SizeFrom(fs, kind, i, last) + if text != "" || SomeText(fs, kind, i, last) then 1 else 0
    decreases last - i
  {
    var content, budget := Content(fs, kind, i), SizeFrom(fs, kind, i, last);
    LastIsCounted(fs, kind, i, last);
    TailCases(content, budget);
    if i < last {
      WholeRead(fs, kind, i + 1, last, Prepend(content, text));
    }
  }

  lemma {:induction false} LastIsCounted(fs: Files, kind: LogKind, i: nat, last: nat)
    requires i <= last && !Terminated(Content(fs, kind, last))
    ensures |Content(fs, kind, i)| <= SizeFrom(fs, kind, i, last) && SizeFrom(fs, kind, i, last) > 0
    decreases last - i
  {
    if i < last {
      LastIsCounted(fs, kind, i + 1, last);
    }
  }

  /** A crash inside a record, then an append that rotates: the torn record is in a backup behind newer
      text, where no later append completes it, and the byte limit is no longer kept. */
  lemma CrashThenRotationTears(fs: Files, cfg: LogConfig, kind: LogKind, record: string, n: nat, next: string)
    requires cfg.maxFiles > 1 && !Rejects(cfg, record) && !Rejects(cfg, next)
    requires 0 < n <= |record| && record[n - 1] != '\n'
    requires Overflows(cfg, Content(AfterCall(fs, cfg, kind, record, Written(n)), kind, 0), next)
    ensures
      var crashed := AfterCall(fs, cfg, kind, record, Written(n));
      var t := Appended(crashed, cfg, kind, next).0;
      TornBackup(t, kind, 1) && !KeepsLimit(t, kind)
  {
    var crashed := AfterCall(fs, cfg, kind, record, Written(n));
    var t := Appended(crashed, cfg, kind, next).0;
    var torn := Content(crashed, kind, 0);
    TornActive(fs, cfg, kind, record, n);
    ShiftMoves(crashed, kind, 0, BackupCount(cfg), 1);
    assert Content(t, kind, 1) == torn && Content(t, kind, 0) != "";
    assert SomeText(t, kind, 0, 1);
    assert TornBackup(t, kind, 1);
    LimitKeptIffNoTornBackup(t, kind);
  }

  lemma TornActive(fs: Files, cfg: LogConfig, kind: LogKind, record: string, n: nat)
    requires !Rejects(cfg, record) && 0 < n <= |record| && record[n - 1] != '\n'
    ensures !Terminated(Content(AfterCall(fs, cfg, kind, record, Written(n)), kind, 0))
  {
    var room := Room(fs, cfg, kind, record);
    var content := Content(room, kind, 0) + Piece(record, n);
    assert Content(AfterCall(fs, cfg, kind, record, Written(n)), kind, 0) == content;
    assert Piece(record, n) == record[..n] && content[|content| - 1] == record[n - 1];
  }

  // ---------------------------------------------------------------------------------------------
  // One file, and two
  // ---------------------------------------------------------------------------------------------

  /** Asked for one file, or for none, the multi-file reader is the single-file one. */
  lemma ReadsOneFile(fs: Files, kind: LogKind, maxBytes: nat, maxFiles: nat)
    requires maxFiles <= 1
    ensures ReadTails(fs, kind, maxBytes, maxFiles) == TailOf(Content(fs, kind, 0), maxBytes)
  {
    TailsFit(fs, kind);
    var text := TailOf(Content(fs, kind, 0), maxBytes);
    assert text + "" == text;
  }

  /** Asked for two that fit, it puts the backup first, with a line feed behind it where that is missing. */
  lemma ReadsTwoFiles(fs: Files, kind: LogKind, maxBytes: nat)
    requires Content(fs, kind, 0) != "" && Content(fs, kind, 1) != ""
    requires |Content(fs, kind, 0)| + |Content(fs, kind, 1)| <= maxBytes
    ensures
      var active, backup := Content(fs, kind, 0), Content(fs, kind, 1);
      ReadTails(fs, kind, maxBytes, 2) == (if backup[|backup| - 1] == '\n' then backup else backup + "\n") + active
  {
    TailsFit(fs, kind);
    var active, backup := Content(fs, kind, 0), Content(fs, kind, 1);
    assert active + "" == active;
    ReadOneMore(TailsOf(fs, kind), 0, 2, maxBytes, "");
    ReadOneMore(TailsOf(fs, kind), 1, 2, maxBytes - |active|, active);
  }

  lemma ReadOneMore(tails: Tails, i: nat, want: nat, budget: nat, text: string)
    requires WithinBudget(tails) && i < want && budget > 0
    ensures Read(tails, i, want, budget, text) ==
      Read(tails, i + 1, want, budget - |tails.tail(i, budget)|, tails.join(tails.tail(i, budget), text))
  {
  }
}
