/** Rotation by sizes: when an append rotates, what it leaves, and how much a run keeps at least. */
module JsonlSizes {
  import opened Text
  import opened FileSystem
  import opened JsonlLog

  /** Every name but the active log's keeps its content. */
  ghost predicate OnlyActive(after: Files, fs: Files, kind: LogKind)
  {
    forall n: Name :: n != Log(kind, 0) ==> (n in after <==> n in fs) && (n in fs ==> after[n] == fs[n])
  }

  /** Files 1, ..., maxFiles - 1 are the files one place below, and every other name but the active log's
      keeps its content. */
  ghost predicate MovedUp(after: Files, fs: Files, kind: LogKind, maxFiles: nat)
  {
    forall n: Name :: n != Log(kind, 0) ==>
      var from := if n.Log? && n.kind == kind && n.index < maxFiles then Log(kind, n.index - 1) else n;
      (n in after <==> from in fs) && (n in after ==> after[n] == fs[from])
  }

  lemma ShiftedIsMovedUp(fs: Files, kind: LogKind, maxFiles: nat)
    requires maxFiles > 1
    ensures
      var after := Shifted(fs, kind, 0, maxFiles - 1);
      Log(kind, 0) !in after && MovedUp(after, fs, kind, maxFiles)
  {
    ShiftedAt(fs, kind, 0, maxFiles - 1, Log(kind, 0));
    forall n: Name | n != Log(kind, 0)
      ensures
        var after := Shifted(fs, kind, 0, maxFiles - 1);
        var from := if n.Log? && n.kind == kind && n.index < maxFiles then Log(kind, n.index - 1) else n;
        (n in after <==> from in fs) && (n in after ==> after[n] == fs[from])
    {
      ShiftedAt(fs, kind, 0, maxFiles - 1, n);
    }
  }

  /** An append in numbers: a record longer than its limit is refused; any other is added to the active
      file when that leaves it within the limit, and otherwise begins a new one, with the old one as the
      first backup. */
  lemma AppendBySizes(fs: Files, cfg: LogConfig, kind: LogKind, record: string)
    ensures
      var active := if Log(kind, 0) in fs then fs[Log(kind, 0)] else "";
      var (after, st) := Appended(fs, cfg, kind, record);
      if cfg.maxRecordBytes > 0 && |record| > cfg.maxRecordBytes then after == fs && st == StatusLimit
      else if cfg.maxBytes == 0 || |active| + |record| + 1 <= cfg.maxBytes then
        st == StatusOk && OnlyActive(after, fs, kind)
        && Log(kind, 0) in after && after[Log(kind, 0)] == active + record + "\n"
      else
        st == StatusOk && MovedUp(after, fs, kind, cfg.maxFiles)
        && Log(kind, 0) in after && after[Log(kind, 0)] == record + "\n"
  {
    Nothing(record);
    if cfg.maxFiles > 1 {
      ShiftedIsMovedUp(fs, kind, cfg.maxFiles);
    }
  }

  // ---------------------------------------------------------------------------------------------
  // Runs
  // ---------------------------------------------------------------------------------------------

  predicate WithinLimit(cfg: LogConfig, records: seq<string>)
  {
    forall k :: 0 <= k < |records| ==> cfg.maxRecordBytes == 0 || |records[k]| <= cfg.maxRecordBytes
  }

  /** A run whose lines fit behind what the active file holds drops nothing and touches nothing else. */
  lemma {:induction false} FittingRunDropsNothing(fs: Files, cfg: LogConfig, kind: LogKind, records: seq<string>)
    requires WithinLimit(cfg, records)
    requires cfg.maxBytes == 0 || |Content(fs, kind, 0)| + |Lines(records)| <= cfg.maxBytes
    ensures Content(Run(fs, cfg, kind, records), kind, 0) == Content(fs, kind, 0) + Lines(records)
    ensures OnlyActive(Run(fs, cfg, kind, records), fs, kind)
  {
    Nothing(Content(fs, kind, 0));
    if records != [] {
      var before, last := records[..|records| - 1], records[|records| - 1];
      assert records == before + [last];
      LinesSnoc(before, last);
      FittingRunDropsNothing(fs, cfg, kind, before);
      FittingAppend(Run(fs, cfg, kind, before), cfg, kind, last);
      OnlyActiveTwice(Run(fs, cfg, kind, records), Run(fs, cfg, kind, before), fs, kind);
      Regroup(Content(fs, kind, 0), Lines(before), last + "\n");
    }
  }

  lemma FittingAppend(fs: Files, cfg: LogConfig, kind: LogKind, record: string)
    requires cfg.maxRecordBytes == 0 || |record| <= cfg.maxRecordBytes
    requires cfg.maxBytes == 0 || |Content(fs, kind, 0)| + |record| + 1 <= cfg.maxBytes
    ensures Content(Appended(fs, cfg, kind, record).0, kind, 0) == Content(fs, kind, 0) + (record + "\n")
    ensures OnlyActive(Appended(fs, cfg, kind, record).0, fs, kind)
  {
    AppendBySizes(fs, cfg, kind, record);
    AppendedContents(fs, cfg, kind, record);
  }

  lemma OnlyActiveTwice(after: Files, mid: Files, fs: Files, kind: LogKind)
    requires OnlyActive(after, mid, kind) && OnlyActive(mid, fs, kind)
    ensures OnlyActive(after, fs, kind)
  {
  }

  lemma LinesSnoc(before: seq<string>, last: string)
    ensures Lines(before + [last]) == Lines(before) + (last + "\n")
  {
    LinesAppend(before, [last]);
    LinesOne(last);
  }

  /** Rotation is never early: file i, if the run rotated so often, had no room for a line of `longest`
      bytes. */
  predicate Full(fs: Files, cfg: LogConfig, kind: LogKind, i: nat, longest: nat)
  {
    |Content(fs, kind, i)| + longest > cfg.maxBytes
  }

  /** After `turns` rotations from `start`: the files that were begun since then are full, but for the
      active one; those of the start are that many places up; and until one of them falls off the end,
      the files begun since then hold all that was written, behind what the active file held. */
  ghost predicate Turned(fs: Files, start: Files, cfg: LogConfig, kind: LogKind, turns: nat, longest: nat, written: string)
  {
    && turns <= BackupCount(cfg) + 1
    && (forall i :: 1 <= i <= turns && i <= BackupCount(cfg) ==> Full(fs, cfg, kind, i, longest))
    && (forall i :: turns < i <= BackupCount(cfg) ==> Content(fs, kind, i) == Content(start, kind, i - turns))
    && (turns <= BackupCount(cfg) ==> Retained(fs, kind, turns) == Content(start, kind, 0) + written)
  }

  lemma {:induction false} RetainedMovesUp(after: Files, fs: Files, kind: LogKind, i: nat)
    requires forall k :: 1 <= k <= i + 1 ==> Content(after, kind, k) == Content(fs, kind, k - 1)
    ensures Retained(after, kind, i + 1) == Retained(fs, kind, i) + Content(after, kind, 0)
  {
    if i > 0 {
      RetainedMovesUp(after, fs, kind, i - 1);
      Regroup(Content(fs, kind, i), Retained(fs, kind, i - 1), Content(after, kind, 0));
    } else {
      Nothing(Content(fs, kind, 0));
      Nothing(Content(after, kind, 0));
    }
  }

  lemma {:induction false} RetainedGrows(after: Files, fs: Files, kind: LogKind, i: nat, more: string)
    requires forall k :: 1 <= k <= i ==> Content(after, kind, k) == Content(fs, kind, k)
    requires Content(after, kind, 0) == Content(fs, kind, 0) + more
    ensures Retained(after, kind, i) == Retained(fs, kind, i) + more
  {
    Nothing(Content(fs, kind, 0));
    Nothing(Content(after, kind, 0));
    if i > 0 {
      RetainedGrows(after, fs, kind, i - 1, more);
      Regroup(Content(fs, kind, i), Retained(fs, kind, i - 1), more);
    }
  }

  lemma SameTurn(
    after: Files, fs: Files, start: Files, cfg: LogConfig, kind: LogKind, turns: nat, longest: nat, written: string, line: string)
    requires Turned(fs, start, cfg, kind, turns, longest, written)
    requires forall i :: 1 <= i <= BackupCount(cfg) ==> Content(after, kind, i) == Content(fs, kind, i)
    requires Content(after, kind, 0) == Content(fs, kind, 0) + line
    ensures Turned(after, start, cfg, kind, turns, longest, written + line)
  {
    if turns <= BackupCount(cfg) {
      RetainedGrows(after, fs, kind, turns, line);
      Regroup(Content(start, kind, 0), written, line);
    }
    forall i | 1 <= i <= turns && i <= BackupCount(cfg)
      ensures Full(after, cfg, kind, i, longest)
    {
      assert Full(fs, cfg, kind, i, longest);
    }
  }

  lemma NextTurn(
    after: Files, fs: Files, start: Files, cfg: LogConfig, kind: LogKind, turns: nat, longest: nat, written: string, line: string)
    requires Turned(fs, start, cfg, kind, turns, longest, written) && Full(fs, cfg, kind, 0, longest)
    requires forall i :: 1 <= i <= BackupCount(cfg) ==> Content(after, kind, i) == Content(fs, kind, i - 1)
    requires Content(after, kind, 0) == line
    ensures Turned(after, start, cfg, kind, Min(turns, BackupCount(cfg)) + 1, longest, written + line)
  {
    if turns < BackupCount(cfg) {
      RetainedMovesUp(after, fs, kind, turns);
      Regroup(Content(start, kind, 0), written, line);
    }
    forall i | 1 <= i <= Min(turns, BackupCount(cfg)) + 1 && i <= BackupCount(cfg)
      ensures Full(after, cfg, kind, i, longest)
    {
      assert Full(fs, cfg, kind, i - 1, longest);
    }
    forall i | turns + 1 < i <= BackupCount(cfg)
      ensures Content(after, kind, i) == Content(start, kind, i - turns - 1)
    {
      assert Content(fs, kind, i - 1) == Content(start, kind, i - 1 - turns);
    }
  }

  /** What an append does to the files of its log. */
  lemma AppendedContents(fs: Files, cfg: LogConfig, kind: LogKind, record: string)
    requires cfg.maxRecordBytes == 0 || |record| <= cfg.maxRecordBytes
    ensures
      var after, fits := Appended(fs, cfg, kind, record).0, cfg.maxBytes == 0 || |Content(fs, kind, 0)| + |record| + 1 <= cfg.maxBytes;
      && Content(after, kind, 0) == (if fits then Content(fs, kind, 0) + (record + "\n") else record + "\n")
      && forall i :: 1 <= i <= BackupCount(cfg) ==> Content(after, kind, i) == Content(fs, kind, if fits then i else i - 1)
  {
    var after := Appended(fs, cfg, kind, record).0;
    AppendBySizes(fs, cfg, kind, record);
    Regroup(Content(fs, kind, 0), record, "\n");
    forall i | 1 <= i <= BackupCount(cfg)
      ensures OnlyActive(after, fs, kind) ==> Content(after, kind, i) == Content(fs, kind, i)
      ensures MovedUp(after, fs, kind, cfg.maxFiles) ==> Content(after, kind, i) == Content(fs, kind, i - 1)
    {
      BackupContent(after, fs, kind, cfg.maxFiles, i);
    }
  }

  lemma BackupContent(after: Files, fs: Files, kind: LogKind, maxFiles: nat, i: nat)
    requires i > 0
    ensures OnlyActive(after, fs, kind) ==> Content(after, kind, i) == Content(fs, kind, i)
    ensures MovedUp(after, fs, kind, maxFiles) && i < maxFiles ==> Content(after, kind, i) == Content(fs, kind, i - 1)
  {
  }

  lemma StepTurns(
    fs: Files, start: Files, cfg: LogConfig, kind: LogKind, turns: nat, longest: nat, written: string, record: string)
    returns (next: nat)
    requires Turned(fs, start, cfg, kind, turns, longest, written)
    requires |record| + 1 <= longest && (cfg.maxRecordBytes == 0 || |record| <= cfg.maxRecordBytes)
    ensures Turned(Appended(fs, cfg, kind, record).0, start, cfg, kind, next, longest, written + (record + "\n"))
  {
    var after := Appended(fs, cfg, kind, record).0;
    AppendedContents(fs, cfg, kind, record);
    if cfg.maxBytes == 0 || |Content(fs, kind, 0)| + |record| + 1 <= cfg.maxBytes {
      next := turns;
      SameTurn(after, fs, start, cfg, kind, turns, longest, written, record + "\n");
    } else {
      next := Min(turns, BackupCount(cfg)) + 1;
      NextTurn(after, fs, start, cfg, kind, turns, longest, written, record + "\n");
    }
  }

  /** What a run of finished appends keeps at least, from any directory: each backup it began is so full
      that the longest line would not have fitted, and as long as the backups suffice everything is kept. */
  lemma {:induction false} RunKeepsEnough(fs: Files, cfg: LogConfig, kind: LogKind, records: seq<string>, longest: nat)
    returns (turns: nat)
    requires WithinLimit(cfg, records) && forall k :: 0 <= k < |records| ==> |records[k]| + 1 <= longest
    ensures Turned(Run(fs, cfg, kind, records), fs, cfg, kind, turns, longest, Lines(records))
  {
    if records == [] {
      turns := 0;
      Nothing(Content(fs, kind, 0));
    } else {
      var before, last := records[..|records| - 1], records[|records| - 1];
      assert records == before + [last];
      LinesSnoc(before, last);
      var sofar := RunKeepsEnough(fs, cfg, kind, before, longest);
      turns := StepTurns(Run(fs, cfg, kind, before), fs, cfg, kind, sofar, longest, Lines(before), last);
      assert Run(fs, cfg, kind, records) == Appended(Run(fs, cfg, kind, before), cfg, kind, last).0;
    }
  }
}
