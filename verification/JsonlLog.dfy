/** Size-bounded JSONL logs: append with rotation.  The audit log and the client-event log run the
    same code, each over its own names and limits. */
module JsonlLog {
  import opened Text
  import opened FileSystem

  /** `maxBytes == 0` disables rotation, `maxRecordBytes == 0` the record limit. */
  datatype LogConfig = LogConfig(maxBytes: nat, maxFiles: nat, maxRecordBytes: nat)

  datatype Status = StatusOk | StatusLimit | StatusInternal

  function BackupCount(cfg: LogConfig): nat
  {
    if cfg.maxFiles <= 1 then 0 else cfg.maxFiles - 1
  }

  /** The bytes of file `i` of a log, "" when it does not exist. */
  function Content(fs: Files, kind: LogKind, i: nat): string
  {
    if Log(kind, i) in fs then fs[Log(kind, i)] else ""
  }

  /** The bytes of all files, oldest backup first, the active file last. */
  function Retained(fs: Files, kind: LogKind, oldest: nat): string
  {
    Content(fs, kind, oldest) + if oldest == 0 then "" else Retained(fs, kind, oldest - 1)
  }

  predicate Rejects(cfg: LogConfig, record: string)
  {
    cfg.maxRecordBytes > 0 && |record| > cfg.maxRecordBytes
  }

  predicate Overflows(cfg: LogConfig, active: string, record: string)
  {
    cfg.maxBytes > 0 && |active| + |record| + 1 > cfg.maxBytes
  }

  // ---------------------------------------------------------------------------------------------
  // Bytes: what an append does to the directory
  // ---------------------------------------------------------------------------------------------

  predicate InRange(n: Name, kind: LogKind, lo: nat, hi: nat)
  {
    n.Log? && n.kind == kind && lo <= n.index <= hi
  }

  /** Drop file `hi`, then rename hi-1, ..., lo (those that exist) one place up, in this order. */
  function Shifted(fs: Files, kind: LogKind, lo: nat, hi: nat): Files
    requires lo <= hi
    decreases hi - lo
  {
    if lo == hi then fs - {Log(kind, hi)}
    else
      var above := Shifted(fs, kind, lo + 1, hi);
      if Log(kind, lo) in above then Renamed(above, Log(kind, lo), Log(kind, lo + 1)) else above
  }

  /** What the shift amounts to, name by name: i-1 is now i, `lo` is free, the rest is untouched. */
  lemma {:induction false} ShiftedAt(fs: Files, kind: LogKind, lo: nat, hi: nat, n: Name)
    requires lo <= hi
    ensures
      var shifted := Shifted(fs, kind, lo, hi);
      if !InRange(n, kind, lo, hi) then (n in shifted <==> n in fs) && (n in fs ==> shifted[n] == fs[n])
      else if n.index == lo then n !in shifted
      else (n in shifted <==> Log(kind, n.index - 1) in fs)
           && (n in shifted ==> shifted[n] == fs[Log(kind, n.index - 1)])
    decreases hi - lo
  {
    if lo < hi {
      ShiftedAt(fs, kind, lo + 1, hi, n);
      ShiftedAt(fs, kind, lo + 1, hi, Log(kind, lo));
    }
  }

  function Rotated(fs: Files, cfg: LogConfig, kind: LogKind): Files
  {
    if cfg.maxFiles <= 1 then fs[Log(kind, 0) := ""] else Shifted(fs, kind, 0, BackupCount(cfg))
  }

  /** The directory an append writes to: rotated first when the record would overflow the active file. */
  function Room(fs: Files, cfg: LogConfig, kind: LogKind, record: string): Files
  {
    if Overflows(cfg, Content(fs, kind, 0), record) then Rotated(fs, cfg, kind) else fs
  }

  function Appended(fs: Files, cfg: LogConfig, kind: LogKind, record: string): (Files, Status)
  {
    if Rejects(cfg, record) then (fs, StatusLimit)
    else
      var room := Room(fs, cfg, kind, record);
      (room[Log(kind, 0) := Content(room, kind, 0) + record + "\n"], StatusOk)
  }

  // ---------------------------------------------------------------------------------------------
  // Where a call can end
  // ---------------------------------------------------------------------------------------------

  /** A call ends inside the rotation, after the files from `lo` on have moved up, or after it has
      written so many bytes of its line: all of them unless it crashes. */
  datatype Outcome = Rotating(lo: nat) | Written(bytes: nat)

  predicate Rotates(cfg: LogConfig, active: string, record: string, o: Outcome)
  {
    && !Rejects(cfg, record) && Overflows(cfg, active, record)
    && (o.Rotating? ==> cfg.maxFiles > 1 && o.lo <= BackupCount(cfg))
  }

  /** The first `n` bytes of the record's line. */
  function Piece(record: string, n: nat): string
  {
    (record + "\n")[..Min(n, |record| + 1)]
  }

  function AfterCall(fs: Files, cfg: LogConfig, kind: LogKind, record: string, o: Outcome): Files
  {
    if Rejects(cfg, record) then fs
    else
      match o
      case Rotating(lo) =>
        if Rotates(cfg, Content(fs, kind, 0), record, o) then Shifted(fs, kind, lo, BackupCount(cfg)) else fs
      case Written(n) =>
        var room := Room(fs, cfg, kind, record);
        room[Log(kind, 0) := Content(room, kind, 0) + Piece(record, n)]
  }

  /** A crash inside the call leaves one of these. */
  ghost predicate CrashState(t: Files, fs: Files, cfg: LogConfig, kind: LogKind, record: string)
  {
    exists o :: t == AfterCall(fs, cfg, kind, record, o)
  }

  lemma WholePiece(record: string)
    ensures Piece(record, |record| + 1) == record + "\n" && Piece(record, 0) == ""
  {
  }

  lemma FinishedCall(fs: Files, cfg: LogConfig, kind: LogKind, record: string)
    ensures AfterCall(fs, cfg, kind, record, Written(|record| + 1)) == Appended(fs, cfg, kind, record).0
  {
    WholePiece(record);
    Regroup(Content(Room(fs, cfg, kind, record), kind, 0), record, "\n");
  }

  // ---------------------------------------------------------------------------------------------
  // The code
  // ---------------------------------------------------------------------------------------------

  ghost predicate PartlyShifted(t: Files, start: Files, kind: LogKind, hi: nat)
  {
    exists lo: nat :: lo <= hi && t == Shifted(start, kind, lo, hi)
  }

  ghost predicate AllPartlyShifted(trace: seq<Files>, from: nat, start: Files, kind: LogKind, hi: nat)
  {
    forall k :: from <= k < |trace| ==> PartlyShifted(trace[k], start, kind, hi)
  }

  /** One round of the rotation: file `lo`, if there is one, moves up into the place just vacated. */
  method MoveUp(disk: Disk, kind: LogKind, lo: nat, ghost hi: nat, ghost start: Files)
    requires disk.Valid() && lo < hi && disk.files == Shifted(start, kind, lo + 1, hi)
    modifies disk
    ensures disk.Valid() && disk.files == Shifted(start, kind, lo, hi)
    ensures disk.trace == old(disk.trace) || disk.trace == old(disk.trace) + [disk.files]
  {
    ShiftedAt(start, kind, lo + 1, hi, Log(kind, lo + 1));
    if Log(kind, lo) in disk.files {
      var _ := disk.RenameOrReplace(Log(kind, lo), Log(kind, lo + 1));
    }
  }

  /** Shift every backup up by one place, the oldest falling off, and the active file to `.1`.  A
      crash anywhere inside leaves a shift that is finished from some file on. */
  method ShiftBackups(disk: Disk, kind: LogKind, maxBackup: nat)
    requires disk.Valid() && maxBackup > 0
    modifies disk
    ensures disk.Valid() && disk.files == Shifted(old(disk.files), kind, 0, maxBackup)
    ensures old(disk.trace) <= disk.trace
    ensures AllPartlyShifted(disk.trace, |old(disk.trace)|, old(disk.files), kind, maxBackup)
  {
    ghost var start, from, trace0 := disk.files, |disk.trace|, disk.trace;
    disk.Remove(Log(kind, maxBackup));
    var i := maxBackup;
    while i >= 2
      invariant 1 <= i <= maxBackup && disk.Valid() && trace0 <= disk.trace
      invariant disk.files == Shifted(start, kind, i, maxBackup)
      invariant AllPartlyShifted(disk.trace, from, start, kind, maxBackup)
      decreases i
    {
      MoveUp(disk, kind, i - 1, maxBackup, start);
      i := i - 1;
    }
    MoveUp(disk, kind, 0, maxBackup, start);
  }

  lemma ShiftIsOutcome(start: Files, cfg: LogConfig, kind: LogKind, record: string, lo: nat)
    requires !Rejects(cfg, record) && Overflows(cfg, Content(start, kind, 0), record)
    requires cfg.maxFiles > 1 && lo <= BackupCount(cfg)
    ensures CrashState(Shifted(start, kind, lo, BackupCount(cfg)), start, cfg, kind, record)
  {
    assert AfterCall(start, cfg, kind, record, Rotating(lo)) == Shifted(start, kind, lo, BackupCount(cfg));
  }

  lemma TruncateIsOutcome(start: Files, cfg: LogConfig, kind: LogKind, record: string)
    requires !Rejects(cfg, record) && Overflows(cfg, Content(start, kind, 0), record) && cfg.maxFiles <= 1
    ensures CrashState(start[Log(kind, 0) := ""], start, cfg, kind, record)
  {
    WholePiece(record);
    assert AfterCall(start, cfg, kind, record, Written(0)) == start[Log(kind, 0) := ""];
  }

  method Rotate(disk: Disk, cfg: LogConfig, kind: LogKind, ghost record: string)
    requires disk.Valid() && !Rejects(cfg, record)
    requires Overflows(cfg, Content(disk.files, kind, 0), record)
    modifies disk
    ensures disk.Valid() && disk.files == Rotated(old(disk.files), cfg, kind)
    ensures old(disk.trace) <= disk.trace
    ensures forall k :: |old(disk.trace)| <= k < |disk.trace| ==>
      CrashState(disk.trace[k], old(disk.files), cfg, kind, record)
  {
    ghost var start, from := disk.files, |disk.trace|;
    if cfg.maxFiles <= 1 {
      disk.Truncate(Log(kind, 0));
      TruncateIsOutcome(start, cfg, kind, record);
      return;
    }
    ShiftBackups(disk, kind, cfg.maxFiles - 1);
    forall k | from <= k < |disk.trace|
      ensures CrashState(disk.trace[k], start, cfg, kind, record)
    {
      assert PartlyShifted(disk.trace[k], start, kind, cfg.maxFiles - 1);
      var lo: nat :| lo <= BackupCount(cfg) && disk.trace[k] == Shifted(start, kind, lo, BackupCount(cfg));
      ShiftIsOutcome(start, cfg, kind, record, lo);
    }
  }

  /** Every state of appending a record to the active file of `room` holds a piece of the record. */
  lemma AppendStatesArePieces(room: Files, kind: LogKind, record: string, before: seq<Files>, after: seq<Files>, k: nat)
    returns (w: nat)
    requires |before| <= k < |after|
    requires
      var n := Log(kind, 0);
      after == if n in room then before + AppendStates(room, n, record + "\n")
               else before + [room[n := ""]] + AppendStates(room[n := ""], n, record + "\n")
    ensures after[k] == room[Log(kind, 0) := Content(room, kind, 0) + Piece(record, w)]
  {
    var n, skip := Log(kind, 0), if Log(kind, 0) in room then 0 else 1;
    w := if k < |before| + skip then 0 else k - |before| - skip + 1;
    Nothing(Content(room, kind, 0));
    if n !in room && w > 0 {
      assert after[k] == room[n := ""][n := "" + (record + "\n")[..w]];
    }
  }

  /** The write that ends an append. */
  method WriteRecord(disk: Disk, kind: LogKind, record: string)
    requires disk.Valid()
    modifies disk
    ensures disk.Valid()
    ensures disk.files == old(disk.files)[Log(kind, 0) := Content(old(disk.files), kind, 0) + record + "\n"]
    ensures old(disk.trace) <= disk.trace
    ensures forall k :: |old(disk.trace)| <= k < |disk.trace| ==>
      exists w :: disk.trace[k] == old(disk.files)[Log(kind, 0) := Content(old(disk.files), kind, 0) + Piece(record, w)]
  {
    ghost var room, before := disk.files, disk.trace;
    disk.Append(Log(kind, 0), record + "\n");
    Regroup(Content(room, kind, 0), record, "\n");
    Nothing(record + "\n");
    forall k | |before| <= k < |disk.trace|
      ensures exists w :: disk.trace[k] == room[Log(kind, 0) := Content(room, kind, 0) + Piece(record, w)]
    {
      var w := AppendStatesArePieces(room, kind, record, before, disk.trace, k);
    }
  }

  /** One append; `dirOk` and `openOk` say whether the directory and the file can be opened. */
  method AppendJsonl(disk: Disk, cfg: LogConfig, kind: LogKind, record: string, dirOk: bool, openOk: bool)
    returns (st: Status)
    requires disk.Valid()
    modifies disk
    ensures disk.Valid() && old(disk.trace) <= disk.trace
    ensures dirOk && openOk ==> (disk.files, st) == Appended(old(disk.files), cfg, kind, record)
    ensures !dirOk ==> st == StatusInternal && disk.files == old(disk.files)
    ensures dirOk && !openOk && Rejects(cfg, record) ==> st == StatusLimit && disk.files == old(disk.files)
    ensures dirOk && !openOk && !Rejects(cfg, record) ==>
      st == StatusInternal && disk.files == Room(old(disk.files), cfg, kind, record)
    ensures forall k :: |old(disk.trace)| <= k < |disk.trace| ==>
      CrashState(disk.trace[k], old(disk.files), cfg, kind, record)
  {
    if !dirOk {
      return StatusInternal;
    }
    if cfg.maxRecordBytes > 0 && |record| > cfg.maxRecordBytes {
      return StatusLimit;
    }
    if cfg.maxBytes > 0 {
      var currentSize := if Log(kind, 0) in disk.files then |disk.files[Log(kind, 0)]| else 0;
      if currentSize + |record| + 1 > cfg.maxBytes {
        Rotate(disk, cfg, kind, record);
      }
    }
    if !openOk {
      return StatusInternal;
    }
    ghost var before := disk.trace;
    WriteRecord(disk, kind, record);
    forall k | |before| <= k < |disk.trace|
      ensures CrashState(disk.trace[k], old(disk.files), cfg, kind, record)
    {
      var room := Room(old(disk.files), cfg, kind, record);
      var w: nat :| disk.trace[k] == room[Log(kind, 0) := Content(room, kind, 0) + Piece(record, w)];
      assert disk.trace[k] == AfterCall(old(disk.files), cfg, kind, record, Written(w));
    }
    return StatusOk;
  }

  // ---------------------------------------------------------------------------------------------
  // Pieces: the log as lists of what calls wrote, file 0 the active one
  // ---------------------------------------------------------------------------------------------

  type Parts = seq<seq<string>>

  /** All pieces held, the oldest first. */
  function Flat(parts: Parts): seq<string>
  {
    if parts == [] then [] else Flat(parts[1..]) + parts[0]
  }

  lemma {:induction false} FlatAppend(a: Parts, b: Parts)
    ensures Flat(a + b) == Flat(b) + Flat(a)
  {
    if a == [] {
      assert a + b == b;
    } else {
      assert (a + b)[1..] == a[1..] + b;
      FlatAppend(a[1..], b);
    }
  }

  lemma FlatOne(part: seq<string>)
    ensures Flat([part]) == part
  {
    assert [part][1..] == [];
  }

  /** The files 0, ..., BackupCount consist of these pieces. */
  ghost predicate Holds(fs: Files, cfg: LogConfig, kind: LogKind, parts: Parts)
  {
    && |parts| == BackupCount(cfg) + 1
    && forall i :: 0 <= i < |parts| ==> Content(fs, kind, i) == Concat(parts[i])
  }

  /** Every directory can be seen that way: each file as one piece. */
  function WholeFiles(fs: Files, cfg: LogConfig, kind: LogKind): (parts: Parts)
    ensures Holds(fs, cfg, kind, parts)
  {
    var parts := seq(BackupCount(cfg) + 1, (i: nat) => [Content(fs, kind, i)]);
    assert forall i :: 0 <= i < |parts| ==> Content(fs, kind, i) == Concat(parts[i]) by {
      forall i | 0 <= i < |parts|
        ensures Content(fs, kind, i) == Concat(parts[i])
      {
        ConcatOne(Content(fs, kind, i));
      }
    }
    parts
  }

  /** Part `lo` is free, the older ones have moved up, the oldest has gone. */
  function WithHole(parts: Parts, lo: nat): (next: Parts)
    requires lo < |parts|
    ensures |next| == |parts|
  {
    parts[..lo] + [[]] + parts[lo..|parts| - 1]
  }

  function Roomy(cfg: LogConfig, parts: Parts, record: string): (next: Parts)
    requires parts != []
    ensures |next| == |parts|
  {
    if Overflows(cfg, Concat(parts[0]), record) then WithHole(parts, 0) else parts
  }

  function AfterParts(cfg: LogConfig, parts: Parts, record: string, o: Outcome): (next: Parts)
    requires |parts| == BackupCount(cfg) + 1
    ensures |next| == |parts|
  {
    if Rejects(cfg, record) then parts
    else
      match o
      case Rotating(lo) => if Rotates(cfg, Concat(parts[0]), record, o) then WithHole(parts, lo) else parts
      case Written(w) =>
        var roomy := Roomy(cfg, parts, record);
        roomy[0 := roomy[0] + [Piece(record, w)]]
  }

  /** A call on bytes is a call on pieces, and touches no other name. */
  lemma CallRefinesPieces(fs: Files, cfg: LogConfig, kind: LogKind, parts: Parts, record: string, o: Outcome)
    requires Holds(fs, cfg, kind, parts)
    ensures Holds(AfterCall(fs, cfg, kind, record, o), cfg, kind, AfterParts(cfg, parts, record, o))
  {
    var fs', next := AfterCall(fs, cfg, kind, record, o), AfterParts(cfg, parts, record, o);
    forall i | 0 <= i < |next|
      ensures Content(fs', kind, i) == Concat(next[i])
    {
      FileRefinesPieces(fs, cfg, kind, parts, record, o, i);
    }
  }

  lemma FileRefinesPieces(fs: Files, cfg: LogConfig, kind: LogKind, parts: Parts, record: string, o: Outcome, i: nat)
    requires Holds(fs, cfg, kind, parts) && i < |parts|
    ensures Content(AfterCall(fs, cfg, kind, record, o), kind, i) == Concat(AfterParts(cfg, parts, record, o)[i])
  {
    assert Content(fs, kind, 0) == Concat(parts[0]) && Content(fs, kind, i) == Concat(parts[i]);
    if o.Rotating? {
      if Rotates(cfg, Content(fs, kind, 0), record, o) {
        ShiftedContent(fs, cfg, kind, parts, o.lo, i);
      }
    } else if !Rejects(cfg, record) {
      WrittenFile(fs, cfg, kind, parts, record, o.bytes, i);
    }
  }

  lemma WrittenFile(fs: Files, cfg: LogConfig, kind: LogKind, parts: Parts, record: string, w: nat, i: nat)
    requires Holds(fs, cfg, kind, parts) && i < |parts| && !Rejects(cfg, record)
    ensures
      Content(AfterCall(fs, cfg, kind, record, Written(w)), kind, i) == Concat(AfterParts(cfg, parts, record, Written(w))[i])
  {
    RoomFile(fs, cfg, kind, parts, record, i);
    if i == 0 {
      OneMorePiece(Roomy(cfg, parts, record)[0], Piece(record, w));
    }
  }

  lemma RoomFile(fs: Files, cfg: LogConfig, kind: LogKind, parts: Parts, record: string, i: nat)
    requires Holds(fs, cfg, kind, parts) && i < |parts|
    ensures Content(Room(fs, cfg, kind, record), kind, i) == Concat(Roomy(cfg, parts, record)[i])
  {
    assert Content(fs, kind, 0) == Concat(parts[0]);
    if Overflows(cfg, Content(fs, kind, 0), record) && cfg.maxFiles > 1 {
      ShiftedContent(fs, cfg, kind, parts, 0, i);
    } else {
      assert Content(fs, kind, i) == Concat(parts[i]);
    }
  }

  lemma OneMorePiece(part: seq<string>, piece: string)
    ensures Concat(part + [piece]) == Concat(part) + piece
  {
    ConcatOne(piece);
    ConcatAppend(part, [piece]);
  }

  lemma HoleAt(parts: Parts, lo: nat, i: nat)
    requires lo < |parts| && i < |parts|
    ensures WithHole(parts, lo)[i] == if i < lo then parts[i] else if i == lo then [] else parts[i - 1]
  {
  }

  lemma ShiftedContent(fs: Files, cfg: LogConfig, kind: LogKind, parts: Parts, lo: nat, i: nat)
    requires Holds(fs, cfg, kind, parts) && i < |parts| && lo < |parts|
    ensures Content(Shifted(fs, kind, lo, BackupCount(cfg)), kind, i) == Concat(WithHole(parts, lo)[i])
  {
    ShiftMoves(fs, kind, lo, BackupCount(cfg), i);
    HoleAt(parts, lo, i);
    if i > lo {
      assert Content(fs, kind, i - 1) == Concat(parts[i - 1]);
    } else {
      assert Content(fs, kind, i) == Concat(parts[i]);
    }
  }

  lemma ShiftMoves(fs: Files, kind: LogKind, lo: nat, hi: nat, i: nat)
    requires lo <= hi && i <= hi
    ensures Content(Shifted(fs, kind, lo, hi), kind, i) ==
      if i < lo then Content(fs, kind, i) else if i == lo then "" else Content(fs, kind, i - 1)
  {
    ShiftedAt(fs, kind, lo, hi, Log(kind, i));
  }

  /** Nothing outside the files 0, ..., BackupCount of this log changes. */
  lemma CallTouchesOwnFiles(fs: Files, cfg: LogConfig, kind: LogKind, record: string, o: Outcome, n: Name)
    requires !(n.Log? && n.kind == kind && n.index <= BackupCount(cfg))
    ensures n in AfterCall(fs, cfg, kind, record, o) <==> n in fs
    ensures n in fs ==> AfterCall(fs, cfg, kind, record, o)[n] == fs[n]
  {
    var lo := if o.Rotating? then o.lo else 0;
    if lo <= BackupCount(cfg) {
      ShiftedAt(fs, kind, lo, BackupCount(cfg), n);
    }
  }

  lemma {:induction false} RunTouchesOwnFiles(fs: Files, cfg: LogConfig, kind: LogKind, calls: seq<Call>, n: Name)
    requires !(n.Log? && n.kind == kind && n.index <= BackupCount(cfg))
    ensures n in After(fs, cfg, kind, calls) <==> n in fs
    ensures n in fs ==> After(fs, cfg, kind, calls)[n] == fs[n]
  {
    if calls != [] {
      var before, last := calls[..|calls| - 1], calls[|calls| - 1];
      RunTouchesOwnFiles(fs, cfg, kind, before, n);
      CallTouchesOwnFiles(After(fs, cfg, kind, before), cfg, kind, last.record, last.outcome, n);
    }
  }

  /** What a call writes. */
  function Wrote(cfg: LogConfig, record: string, o: Outcome): seq<string>
  {
    if Rejects(cfg, record) || o.Rotating? then [] else [Piece(record, o.bytes)]
  }

  /** A call drops exactly the oldest file's pieces when it rotates, and nothing otherwise. */
  lemma CallDropsOldestPart(cfg: LogConfig, parts: Parts, record: string, o: Outcome)
    requires |parts| == BackupCount(cfg) + 1
    ensures Flat(parts) + Wrote(cfg, record, o) ==
      (if Rotates(cfg, Concat(parts[0]), record, o) then parts[|parts| - 1] else []) + Flat(AfterParts(cfg, parts, record, o))
  {
    Nothing(Flat(parts));
    if !Rejects(cfg, record) {
      FlatLast(parts);
      match o
      case Rotating(lo) =>
        if Rotates(cfg, Concat(parts[0]), record, o) {
          HoleIsNothing(parts, lo);
        }
      case Written(w) =>
        HoleIsNothing(parts, 0);
        LastPiece(Roomy(cfg, parts, record), Piece(record, w));
        Regroup(parts[|parts| - 1], Flat(parts[..|parts| - 1]), [Piece(record, w)]);
    }
  }

  lemma LastPiece(parts: Parts, piece: string)
    requires parts != []
    ensures Flat(parts) + [piece] == Flat(parts[0 := parts[0] + [piece]])
  {
    assert parts[0 := parts[0] + [piece]][1..] == parts[1..];
    Regroup(Flat(parts[1..]), parts[0], [piece]);
  }

  lemma FlatLast(parts: Parts)
    requires parts != []
    ensures Flat(parts) == parts[|parts| - 1] + Flat(parts[..|parts| - 1])
  {
    var n := |parts| - 1;
    assert parts == parts[..n] + [parts[n]];
    FlatAppend(parts[..n], [parts[n]]);
    FlatOne(parts[n]);
  }

  lemma HoleIsNothing(parts: Parts, lo: nat)
    requires lo < |parts|
    ensures Flat(WithHole(parts, lo)) == Flat(parts[..|parts| - 1])
  {
    var a, b := parts[..lo], parts[lo..|parts| - 1];
    FlatAppend(a + [[]], b);
    FlatAppend(a, [[]]);
    FlatOne([]);
    Nothing(Flat(a));
    FlatAppend(a, b);
    assert a + b == parts[..|parts| - 1];
  }

  // ---------------------------------------------------------------------------------------------
  // Whole runs, with crashes
  // ---------------------------------------------------------------------------------------------

  datatype Call = Call(record: string, outcome: Outcome)

  function After(fs: Files, cfg: LogConfig, kind: LogKind, calls: seq<Call>): Files
  {
    if calls == [] then fs
    else
      var last := calls[|calls| - 1];
      AfterCall(After(fs, cfg, kind, calls[..|calls| - 1]), cfg, kind, last.record, last.outcome)
  }

  function PartsAfter(cfg: LogConfig, parts: Parts, calls: seq<Call>): (next: Parts)
    requires |parts| == BackupCount(cfg) + 1
    ensures |next| == |parts|
  {
    if calls == [] then parts
    else
      var last := calls[|calls| - 1];
      AfterParts(cfg, PartsAfter(cfg, parts, calls[..|calls| - 1]), last.record, last.outcome)
  }

  function AllWrote(cfg: LogConfig, calls: seq<Call>): seq<string>
  {
    if calls == [] then []
    else
      var last := calls[|calls| - 1];
      AllWrote(cfg, calls[..|calls| - 1]) + Wrote(cfg, last.record, last.outcome)
  }

  /** Whatever the directory holds at the start, and wherever any of the calls crashes: the log, oldest
      backup to active file, is a suffix of what it was followed by all that was written, cut between
      pieces.  Crashes inside a rotation, and a deleted active file, leave holes among the backups. */
  lemma {:induction false} RunKeepsNewestPieces(fs: Files, cfg: LogConfig, kind: LogKind, parts: Parts, calls: seq<Call>)
    requires Holds(fs, cfg, kind, parts)
    ensures
      var held := PartsAfter(cfg, parts, calls);
      && Holds(After(fs, cfg, kind, calls), cfg, kind, held)
      && IsSuffix(Flat(held), Flat(parts) + AllWrote(cfg, calls))
  {
    Nothing(Flat(parts));
    if calls != [] {
      var before, last := calls[..|calls| - 1], calls[|calls| - 1];
      var held := PartsAfter(cfg, parts, before);
      RunKeepsNewestPieces(fs, cfg, kind, parts, before);
      CallRefinesPieces(After(fs, cfg, kind, before), cfg, kind, held, last.record, last.outcome);
      CallDropsOldestPart(cfg, held, last.record, last.outcome);
      SuffixGrows(Flat(PartsAfter(cfg, parts, calls)), Flat(held), Wrote(cfg, last.record, last.outcome),
        Flat(parts), AllWrote(cfg, before),
        if Rotates(cfg, Concat(held[0]), last.record, last.outcome) then held[|held| - 1] else []);
    }
  }

  lemma SuffixGrows(next: seq<string>, held: seq<string>, wrote: seq<string>, start: seq<string>, all: seq<string>,
                    dropped: seq<string>)
    requires IsSuffix(held, start + all) && held + wrote == dropped + next
    ensures IsSuffix(next, start + (all + wrote))
  {
    SuffixOfConcat(held, start + all, wrote);
    Regroup(start, all, wrote);
    SuffixOfSuffix(next, dropped + next, start + (all + wrote));
  }

  /** What a call wrote last is held. */
  lemma WrittenIsHeld(cfg: LogConfig, parts: Parts, record: string, w: nat)
    requires |parts| == BackupCount(cfg) + 1 && !Rejects(cfg, record)
    ensures
      var held := Flat(AfterParts(cfg, parts, record, Written(w)));
      held != [] && held[|held| - 1] == Piece(record, w)
  {
    var next := AfterParts(cfg, parts, record, Written(w));
    assert next[0][|next[0]| - 1] == Piece(record, w);
    assert Flat(next) == Flat(next[1..]) + next[0];
  }

  function Texts(parts: Parts): (texts: seq<string>)
    ensures |texts| == |parts|
  {
    seq(|parts|, i requires 0 <= i < |parts| => Concat(parts[i]))
  }

  /** Text k, then k - 1, down to 0. */
  function Down(texts: seq<string>, k: nat): string
    requires k < |texts|
  {
    texts[k] + if k == 0 then "" else Down(texts, k - 1)
  }

  lemma {:induction false} RetainedIsDown(fs: Files, kind: LogKind, texts: seq<string>, k: nat)
    requires k < |texts| && forall i :: 0 <= i <= k ==> Content(fs, kind, i) == texts[i]
    ensures Retained(fs, kind, k) == Down(texts, k)
  {
    if k > 0 {
      RetainedIsDown(fs, kind, texts, k - 1);
    }
  }

  lemma FlatTake(parts: Parts, k: nat)
    requires k < |parts|
    ensures Flat(parts[..k + 1]) == parts[k] + Flat(parts[..k])
  {
    assert parts[..k + 1] == parts[..k] + [parts[k]];
    FlatAppend(parts[..k], [parts[k]]);
    FlatOne(parts[k]);
  }

  lemma {:induction false} DownIsFlat(parts: Parts, k: nat)
    requires k < |parts|
    ensures Down(Texts(parts), k) == Concat(Flat(parts[..k + 1]))
  {
    FlatTake(parts, k);
    if k == 0 {
      Nothing(parts[0]);
      Nothing(Concat(parts[0]));
    } else {
      DownIsFlat(parts, k - 1);
      ConcatAppend(parts[k], Flat(parts[..k]));
    }
  }

  lemma RetainedIsHeld(fs: Files, cfg: LogConfig, kind: LogKind, parts: Parts)
    requires Holds(fs, cfg, kind, parts)
    ensures Retained(fs, kind, BackupCount(cfg)) == Concat(Flat(parts))
  {
    RetainedIsDown(fs, kind, Texts(parts), BackupCount(cfg));
    DownIsFlat(parts, BackupCount(cfg));
    assert parts[..BackupCount(cfg) + 1] == parts;
  }

  /** However a call ends, the files hold the bytes of the rotated log and then what was written of the
      record; inside the rotation they hold those of the finished rotation. */
  lemma OutcomeShows(fs: Files, cfg: LogConfig, kind: LogKind, record: string, o: Outcome)
    requires !Rejects(cfg, record)
    ensures
      var room, b := Room(fs, cfg, kind, record), BackupCount(cfg);
      var t := AfterCall(fs, cfg, kind, record, o);
      && (o.Written? ==> Retained(t, kind, b) == Retained(room, kind, b) + Piece(record, o.bytes))
      && (o.Rotating? && t != fs ==> Retained(t, kind, b) == Retained(room, kind, b))
  {
    var parts, room := WholeFiles(fs, cfg, kind), Room(fs, cfg, kind, record);
    var roomy, next := Roomy(cfg, parts, record), AfterParts(cfg, parts, record, o);
    CallRefinesPieces(fs, cfg, kind, parts, record, o);
    RetainedIsHeld(AfterCall(fs, cfg, kind, record, o), cfg, kind, next);
    RoomHolds(fs, cfg, kind, parts, record);
    RetainedIsHeld(room, cfg, kind, roomy);
    assert Content(fs, kind, 0) == Concat(parts[0]);
    match o
    case Written(n) =>
      LastPiece(roomy, Piece(record, n));
      OneMorePiece(Flat(roomy), Piece(record, n));
    case Rotating(lo) =>
      if Rotates(cfg, Concat(parts[0]), record, o) {
        HoleIsNothing(parts, lo);
        HoleIsNothing(parts, 0);
      }
  }

  lemma RoomHolds(fs: Files, cfg: LogConfig, kind: LogKind, parts: Parts, record: string)
    requires Holds(fs, cfg, kind, parts)
    ensures Holds(Room(fs, cfg, kind, record), cfg, kind, Roomy(cfg, parts, record))
  {
    var roomy := Roomy(cfg, parts, record);
    forall i | 0 <= i < |roomy|
      ensures Content(Room(fs, cfg, kind, record), kind, i) == Concat(roomy[i])
    {
      RoomFile(fs, cfg, kind, parts, record, i);
    }
  }

  /** With both limits set no call, finished or not, makes a file longer than max(maxBytes,
      maxRecordBytes + 1); and none touches a file beyond the first max(1, maxFiles). */
  lemma {:induction false} RunStaysBounded(fs: Files, cfg: LogConfig, kind: LogKind, calls: seq<Call>, i: nat, bound: nat)
    requires cfg.maxBytes > 0 && cfg.maxRecordBytes > 0 && bound >= cfg.maxBytes && bound >= cfg.maxRecordBytes + 1
    requires forall j: nat :: j <= BackupCount(cfg) ==> |Content(fs, kind, j)| <= bound
    ensures i < Max(1, cfg.maxFiles) ==> |Content(After(fs, cfg, kind, calls), kind, i)| <= bound
    ensures i >= Max(1, cfg.maxFiles) ==>
      (Log(kind, i) in After(fs, cfg, kind, calls) <==> Log(kind, i) in fs)
      && Content(After(fs, cfg, kind, calls), kind, i) == Content(fs, kind, i)
  {
    if i > BackupCount(cfg) {
      RunTouchesOwnFiles(fs, cfg, kind, calls, Log(kind, i));
    } else if calls != [] {
      var before, last := calls[..|calls| - 1], calls[|calls| - 1];
      forall j: nat
        ensures j <= BackupCount(cfg) ==> |Content(After(fs, cfg, kind, before), kind, j)| <= bound
      {
        RunStaysBounded(fs, cfg, kind, before, j, bound);
      }
      CallStaysBounded(After(fs, cfg, kind, before), cfg, kind, last.record, last.outcome, i, bound);
    }
  }

  lemma CallStaysBounded(fs: Files, cfg: LogConfig, kind: LogKind, record: string, o: Outcome, i: nat, bound: nat)
    requires cfg.maxBytes > 0 && cfg.maxRecordBytes > 0 && bound >= cfg.maxBytes && bound >= cfg.maxRecordBytes + 1
    requires i <= BackupCount(cfg) && forall j: nat :: j <= BackupCount(cfg) ==> |Content(fs, kind, j)| <= bound
    ensures |Content(AfterCall(fs, cfg, kind, record, o), kind, i)| <= bound
  {
    match o
    case Rotating(lo) =>
      if lo <= BackupCount(cfg) {
        ShiftStaysBounded(fs, cfg, kind, lo, i, bound);
      }
    case Written(n) =>
      ShiftStaysBounded(fs, cfg, kind, 0, i, bound);
      assert |Content(fs, kind, i)| <= bound;
      if !Rejects(cfg, record) {
        RoomFits(fs, cfg, kind, record, n);
      }
  }

  lemma RoomFits(fs: Files, cfg: LogConfig, kind: LogKind, record: string, n: nat)
    requires cfg.maxBytes > 0 && cfg.maxRecordBytes > 0 && !Rejects(cfg, record)
    ensures |Content(Room(fs, cfg, kind, record), kind, 0) + Piece(record, n)| <= Max(cfg.maxBytes, cfg.maxRecordBytes + 1)
  {
    ShiftedAt(fs, kind, 0, BackupCount(cfg), Log(kind, 0));
  }

  lemma ShiftStaysBounded(fs: Files, cfg: LogConfig, kind: LogKind, lo: nat, i: nat, bound: nat)
    requires lo <= BackupCount(cfg) && i <= BackupCount(cfg)
    requires forall j: nat :: j <= BackupCount(cfg) ==> |Content(fs, kind, j)| <= bound
    ensures |Content(Shifted(fs, kind, lo, BackupCount(cfg)), kind, i)| <= bound
    ensures i == lo ==> Content(Shifted(fs, kind, lo, BackupCount(cfg)), kind, i) == ""
  {
    ShiftedAt(fs, kind, lo, BackupCount(cfg), Log(kind, i));
    assert i > 0 ==> |Content(fs, kind, i - 1)| <= bound;
    assert |Content(fs, kind, i)| <= bound;
  }

  // ---------------------------------------------------------------------------------------------
  // Runs of finished calls
  // ---------------------------------------------------------------------------------------------

  function Run(fs: Files, cfg: LogConfig, kind: LogKind, records: seq<string>): Files
  {
    if records == [] then fs
    else Appended(Run(fs, cfg, kind, records[..|records| - 1]), cfg, kind, records[|records| - 1]).0
  }

  /** The records of a run that pass the record limit. */
  function Accepted(cfg: LogConfig, records: seq<string>): seq<string>
  {
    if records == [] then []
    else
      var before, last := Accepted(cfg, records[..|records| - 1]), records[|records| - 1];
      if Rejects(cfg, last) then before else before + [last]
  }

  function Finished(records: seq<string>): (calls: seq<Call>)
    ensures |calls| == |records|
  {
    seq(|records|, i requires 0 <= i < |records| => Call(records[i], Written(|records[i]| + 1)))
  }

  /** Each record as the piece a finished call writes. */
  function AsPieces(records: seq<string>): (pieces: seq<string>)
    ensures |pieces| == |records|
  {
    seq(|records|, i requires 0 <= i < |records| => records[i] + "\n")
  }

  lemma {:induction false} PiecesAreLines(records: seq<string>)
    ensures Concat(AsPieces(records)) == Lines(records)
  {
    if records != [] {
      assert AsPieces(records)[1..] == AsPieces(records[1..]);
      PiecesAreLines(records[1..]);
    }
  }

  lemma {:induction false} RunIsFinishedCalls(fs: Files, cfg: LogConfig, kind: LogKind, records: seq<string>)
    ensures Run(fs, cfg, kind, records) == After(fs, cfg, kind, Finished(records))
    ensures AllWrote(cfg, Finished(records)) == AsPieces(Accepted(cfg, records))
  {
    if records != [] {
      var before, last := records[..|records| - 1], records[|records| - 1];
      assert Finished(records)[..|records| - 1] == Finished(before);
      RunIsFinishedCalls(fs, cfg, kind, before);
      FinishedCall(Run(fs, cfg, kind, before), cfg, kind, last);
      assert Finished(records)[|records| - 1] == Call(last, Written(|last| + 1));
      WholePiece(last);
      AddPiece(cfg, before, last);
      Nothing(AsPieces(Accepted(cfg, before)));
    }
  }

  lemma AddPiece(cfg: LogConfig, before: seq<string>, last: string)
    ensures AsPieces(Accepted(cfg, before) + [last]) == AsPieces(Accepted(cfg, before)) + [last + "\n"]
  {
  }

  /** The files 0, ..., BackupCount hold these records. */
  ghost predicate Stores(fs: Files, cfg: LogConfig, kind: LogKind, parts: Parts)
  {
    && |parts| == BackupCount(cfg) + 1
    && forall i :: 0 <= i < |parts| ==> Content(fs, kind, i) == Lines(parts[i])
  }

  function AllPieces(parts: Parts): (pieces: Parts)
    ensures |pieces| == |parts|
  {
    seq(|parts|, i requires 0 <= i < |parts| => AsPieces(parts[i]))
  }

  lemma {:induction false} FlatPieces(parts: Parts)
    ensures Flat(AllPieces(parts)) == AsPieces(Flat(parts))
  {
    if parts != [] {
      assert AllPieces(parts)[1..] == AllPieces(parts[1..]);
      FlatPieces(parts[1..]);
    }
  }

  lemma StoresHolds(fs: Files, cfg: LogConfig, kind: LogKind, parts: Parts)
    requires Stores(fs, cfg, kind, parts)
    ensures Holds(fs, cfg, kind, AllPieces(parts))
  {
    forall i | 0 <= i < |parts|
      ensures Content(fs, kind, i) == Concat(AllPieces(parts)[i])
    {
      PiecesAreLines(parts[i]);
    }
  }

  /** What the records held are: all from the `dropped`-th on. */
  predicate Newest(held: seq<string>, all: seq<string>, dropped: nat)
  {
    dropped <= |all| && held == all[dropped..]
  }

  /** After any sequence of appends to a directory of records the log is a record-aligned suffix of what
      it held and all that was accepted, and ends in the newest record. */
  lemma RunRetainsNewestRecords(fs: Files, cfg: LogConfig, kind: LogKind, parts: Parts, records: seq<string>)
    returns (held: seq<string>, dropped: nat)
    requires Stores(fs, cfg, kind, parts)
    ensures Newest(held, Flat(parts) + Accepted(cfg, records), dropped)
    ensures Retained(Run(fs, cfg, kind, records), kind, BackupCount(cfg)) == Lines(held)
    ensures Accepted(cfg, records) != [] ==> held != []
  {
    var all := Flat(parts) + Accepted(cfg, records);
    var pieces := HeldAfterRun(fs, cfg, kind, parts, records);
    dropped := RecordsThenPieces(pieces, all, []);
    held := all[dropped..];
    Nothing(Lines(held));
    if held == [] {
      assert Lines(held) == "";
    }
  }

  lemma HeldAfterRun(fs: Files, cfg: LogConfig, kind: LogKind, parts: Parts, records: seq<string>) returns (held: seq<string>)
    requires Stores(fs, cfg, kind, parts)
    ensures IsSuffix(held, AsPieces(Flat(parts) + Accepted(cfg, records)) + [])
    ensures Retained(Run(fs, cfg, kind, records), kind, BackupCount(cfg)) == Concat(held)
    ensures Accepted(cfg, records) != [] ==> held != []
  {
    var calls, pieces := Finished(records), AllPieces(parts);
    StoresHolds(fs, cfg, kind, parts);
    RunIsFinishedCalls(fs, cfg, kind, records);
    RunKeepsNewestPieces(fs, cfg, kind, pieces, calls);
    RetainedIsHeld(Run(fs, cfg, kind, records), cfg, kind, PartsAfter(cfg, pieces, calls));
    held := Flat(PartsAfter(cfg, pieces, calls));
    PiecesSoFar(cfg, parts, records, []);
    Nothing(AsPieces(Accepted(cfg, records)));
    if Accepted(cfg, records) != [] {
      SomethingHeld(cfg, pieces, records);
    }
  }

  lemma {:induction false} SomethingHeld(cfg: LogConfig, parts: Parts, records: seq<string>)
    requires |parts| == BackupCount(cfg) + 1 && Accepted(cfg, records) != []
    ensures Flat(PartsAfter(cfg, parts, Finished(records))) != []
  {
    var before, last := records[..|records| - 1], records[|records| - 1];
    assert Finished(records)[..|records| - 1] == Finished(before);
    if Rejects(cfg, last) {
      SomethingHeld(cfg, parts, before);
    } else {
      WrittenIsHeld(cfg, PartsAfter(cfg, parts, Finished(before)), last, |last| + 1);
    }
  }

  /** Without a size limit nothing is ever dropped, whatever the directory held. */
  lemma {:induction false} UnlimitedRunKeepsEverything(fs: Files, cfg: LogConfig, kind: LogKind, records: seq<string>)
    requires cfg.maxBytes == 0
    ensures Content(Run(fs, cfg, kind, records), kind, 0) == Content(fs, kind, 0) + Lines(Accepted(cfg, records))
    ensures forall n: Name :: n != Log(kind, 0) ==>
      (n in Run(fs, cfg, kind, records) <==> n in fs) && (n in fs ==> Run(fs, cfg, kind, records)[n] == fs[n])
  {
    Nothing(Content(fs, kind, 0));
    if records != [] {
      var before, last := records[..|records| - 1], records[|records| - 1];
      UnlimitedRunKeepsEverything(fs, cfg, kind, before);
      LinesOne(last);
      LinesAppend(Accepted(cfg, before), [last]);
      Regroup(Content(fs, kind, 0), Lines(Accepted(cfg, before)), last + "\n");
      Regroup(Content(Run(fs, cfg, kind, before), kind, 0), last, "\n");
    }
  }

  // ---------------------------------------------------------------------------------------------
  // A crash at the end of a run
  // ---------------------------------------------------------------------------------------------

  /** The files of `t` hold the records from `dropped` on and then a piece of `record`. */
  predicate RecordsAndTear(t: Files, cfg: LogConfig, kind: LogKind, all: seq<string>, dropped: nat, record: string, written: nat)
  {
    dropped <= |all| && Retained(t, kind, BackupCount(cfg)) == Lines(all[dropped..]) + Piece(record, written)
  }

  /** At every crash point of an append that follows any run, the files hold the newest records, whole and
      in order, and then a piece of the record being written. */
  lemma CrashLeavesWholeRecordsAndATear(fs: Files, cfg: LogConfig, kind: LogKind, parts: Parts, records: seq<string>,
                                        record: string, t: Files)
    requires Stores(fs, cfg, kind, parts) && CrashState(t, Run(fs, cfg, kind, records), cfg, kind, record)
    ensures exists dropped: nat, w: nat :: RecordsAndTear(t, cfg, kind, Flat(parts) + Accepted(cfg, records), dropped, record, w)
  {
    var all := Flat(parts) + Accepted(cfg, records);
    var o :| t == AfterCall(Run(fs, cfg, kind, records), cfg, kind, record, o);
    var held := HeldAtCrash(fs, cfg, kind, parts, records, record, o);
    var wrote := Wrote(cfg, record, o);
    var dropped := RecordsThenPieces(held, all, wrote);
    if wrote == [] {
      assert RecordsAndTear(t, cfg, kind, all, dropped, record, 0);
    } else {
      ConcatOne(wrote[0]);
      assert RecordsAndTear(t, cfg, kind, all, dropped, record, o.bytes);
    }
  }

  lemma HeldAtCrash(fs: Files, cfg: LogConfig, kind: LogKind, parts: Parts, records: seq<string>, record: string, o: Outcome)
    returns (held: seq<string>)
    requires Stores(fs, cfg, kind, parts)
    ensures IsSuffix(held, AsPieces(Flat(parts) + Accepted(cfg, records)) + Wrote(cfg, record, o))
    ensures |held| >= |Wrote(cfg, record, o)|
    ensures Retained(AfterCall(Run(fs, cfg, kind, records), cfg, kind, record, o), kind, BackupCount(cfg)) == Concat(held)
  {
    var calls := Finished(records);
    var more := calls + [Call(record, o)];
    var pieces := AllPieces(parts);
    assert more[..|calls|] == calls;
    StoresHolds(fs, cfg, kind, parts);
    RunIsFinishedCalls(fs, cfg, kind, records);
    RunKeepsNewestPieces(fs, cfg, kind, pieces, more);
    RetainedIsHeld(After(fs, cfg, kind, more), cfg, kind, PartsAfter(cfg, pieces, more));
    held := Flat(PartsAfter(cfg, pieces, more));
    PiecesSoFar(cfg, parts, records, Wrote(cfg, record, o));
    if Wrote(cfg, record, o) != [] {
      WrittenIsHeld(cfg, PartsAfter(cfg, pieces, calls), record, o.bytes);
    }
  }

  lemma PiecesSoFar(cfg: LogConfig, parts: Parts, records: seq<string>, wrote: seq<string>)
    ensures Flat(AllPieces(parts)) + (AsPieces(Accepted(cfg, records)) + wrote) ==
      AsPieces(Flat(parts) + Accepted(cfg, records)) + wrote
  {
    FlatPieces(parts);
    Regroup(AsPieces(Flat(parts)), AsPieces(Accepted(cfg, records)), wrote);
    assert AsPieces(Flat(parts)) + AsPieces(Accepted(cfg, records)) == AsPieces(Flat(parts) + Accepted(cfg, records));
  }

  lemma RecordsThenPieces(held: seq<string>, all: seq<string>, last: seq<string>) returns (dropped: nat)
    requires IsSuffix(held, AsPieces(all) + last) && |held| >= |last|
    ensures dropped <= |all| && Concat(held) == Lines(all[dropped..]) + Concat(last)
    ensures |held| == |all| - dropped + |last|
  {
    dropped := |all| + |last| - |held|;
    assert held == AsPieces(all[dropped..]) + last;
    ConcatAppend(AsPieces(all[dropped..]), last);
    PiecesAreLines(all[dropped..]);
  }
}
