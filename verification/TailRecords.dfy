/** The multi-file reader over a log that appends built, in records. */
module TailRecords {
  import opened Text
  import opened FileSystem
  import opened JsonlLog
  import opened JsonlTail

  // ---------------------------------------------------------------------------------------------
  // One file
  // ---------------------------------------------------------------------------------------------

  /** The most of the newest records that take fewer than `budget` bytes. */
  function Fitting(rs: seq<string>, budget: nat): seq<string>
  {
    if rs == [] || |Lines(rs)| < budget then rs else Fitting(rs[1..], budget)
  }

  /** All records when they fit. */
  function Kept(rs: seq<string>, budget: nat): seq<string>
  {
    if |Lines(rs)| <= budget then rs else Fitting(rs, budget)
  }

  lemma {:induction false} FittingFits(rs: seq<string>, budget: nat)
    ensures |Lines(Fitting(rs, budget))| <= budget
    ensures Fitting(rs, budget) != [] ==> |Lines(Fitting(rs, budget))| < budget
  {
    if rs != [] && |Lines(rs)| >= budget {
      FittingFits(rs[1..], budget);
    }
  }

  lemma KeptFits(rs: seq<string>, budget: nat)
    ensures |Lines(Kept(rs, budget))| <= budget
  {
    FittingFits(rs, budget);
  }

  lemma SuffixOfRest(a: seq<string>, rs: seq<string>)
    requires rs != [] && IsSuffix(a, rs[1..])
    ensures IsSuffix(a, rs)
  {
  }

  lemma {:induction false} FittingIsLongestSuffix(rs: seq<string>, budget: nat)
    ensures IsSuffix(Fitting(rs, budget), rs)
    ensures forall k :: 0 <= k < |rs| - |Fitting(rs, budget)| ==> |Lines(rs[k..])| >= budget
  {
    assert rs[0..] == rs;
    if rs != [] && |Lines(rs)| >= budget {
      FittingIsLongestSuffix(rs[1..], budget);
      SuffixOfRest(Fitting(rs[1..], budget), rs);
      forall k | 0 <= k < |rs| - |Fitting(rs, budget)|
        ensures |Lines(rs[k..])| >= budget
      {
        if k > 0 {
          assert rs[1..][k - 1..] == rs[k..];
        }
      }
    }
  }

  lemma KeptIsSuffix(rs: seq<string>, budget: nat)
    ensures IsSuffix(Kept(rs, budget), rs)
    ensures Kept(rs, budget) == rs <==> |Lines(rs)| <= budget
  {
    FittingIsLongestSuffix(rs, budget);
    FittingFits(rs, budget);
  }

  predicate NoLineFeed(rs: seq<string>)
  {
    forall r :: r in rs ==> '\n' !in r
  }

  lemma AfterFirstRecord(piece: string, rest: string)
    requires '\n' !in piece
    ensures AfterLineFeed(piece + ("\n" + rest)) == rest
  {
    FirstIndexAfter(piece, "\n" + rest, '\n');
    assert (piece + ("\n" + rest))[|piece| + 1..] == rest;
  }

  lemma LinesSplit(rs: seq<string>, cut: nat)
    requires rs != [] && cut < |Lines(rs)|
    ensures |Lines(rs)| == |rs[0]| + 1 + |Lines(rs[1..])|
    ensures cut <= |rs[0]| ==> Lines(rs)[cut..] == rs[0][cut..] + ("\n" + Lines(rs[1..]))
    ensures cut > |rs[0]| ==> Lines(rs)[cut..] == Lines(rs[1..])[cut - |rs[0]| - 1..]
  {
  }

  /** Cutting a file of records anywhere leaves, behind the next line feed, the records that fit. */
  lemma {:induction false} CutRecords(rs: seq<string>, cut: nat)
    requires NoLineFeed(rs) && cut < |Lines(rs)|
    ensures AfterLineFeed(Lines(rs)[cut..]) == Lines(Fitting(rs, |Lines(rs)| - cut))
  {
    var rest := rs[1..];
    assert rs[0] in rs;
    LinesSplit(rs, cut);
    if cut <= |rs[0]| {
      AfterFirstRecord(rs[0][cut..], Lines(rest));
      FittingAll(rest, |Lines(rs)| - cut);
    } else {
      CutRecords(rest, cut - |rs[0]| - 1);
    }
  }

  lemma FittingAll(rs: seq<string>, budget: nat)
    requires |Lines(rs)| < budget
    ensures Fitting(rs, budget) == rs
  {
  }

  /** The tail of a file of records: all of them when they fit, otherwise the most that take fewer than
      `maxBytes` bytes. */
  lemma TailOfRecords(rs: seq<string>, maxBytes: nat)
    requires NoLineFeed(rs) && maxBytes > 0
    ensures TailOf(Lines(rs), maxBytes) == Lines(Kept(rs, maxBytes))
  {
    if |Lines(rs)| > maxBytes {
      var cut := |Lines(rs)| - maxBytes;
      CutRecords(rs, cut);
      TailWhenCut(Lines(rs), maxBytes, cut, Lines(Kept(rs, maxBytes)));
    } else {
      TailCases(Lines(rs), maxBytes);
    }
  }

  lemma TailWhenCut(content: string, maxBytes: nat, cut: nat, tail: string)
    requires 0 < maxBytes && cut == |content| - maxBytes > 0 && AfterLineFeed(content[cut..]) == tail
    ensures TailOf(content, maxBytes) == tail
  {
  }

  // ---------------------------------------------------------------------------------------------
  // Several files
  // ---------------------------------------------------------------------------------------------

  /** The records of file i; files beyond the oldest backup hold none. */
  function Part(parts: Parts, i: nat): seq<string>
  {
    if i < |parts| then parts[i] else []
  }

  /** Every file of the log is `parts`, and no record contains a line feed. */
  ghost predicate HoldsLines(fs: Files, kind: LogKind, parts: Parts)
  {
    && (forall i: nat :: Content(fs, kind, i) == Lines(Part(parts, i)))
    && (forall i: nat :: NoLineFeed(Part(parts, i)))
  }

  /** What the reader takes from files i, i+1, ..., want-1, in records. */
  function Chosen(parts: Parts, i: nat, want: nat, budget: nat): Parts
    decreases want - i
  {
    if i >= want || budget == 0 then []
    else
      var kept := Kept(Part(parts, i), budget);
      KeptFits(Part(parts, i), budget);
      [kept] + Chosen(parts, i + 1, want, budget - |Lines(kept)|)
  }

  function Texts(chosen: Parts): seq<string>
  {
    if chosen == [] then [] else [Lines(chosen[0])] + Texts(chosen[1..])
  }

  lemma TextsCons(first: seq<string>, rest: Parts)
    ensures Texts([first] + rest) == [Lines(first)] + Texts(rest) && Flat([first] + rest) == Flat(rest) + first
  {
    assert ([first] + rest)[1..] == rest;
  }

  lemma ChunkOfPart(fs: Files, kind: LogKind, parts: Parts, i: nat, budget: nat)
    requires HoldsLines(fs, kind, parts) && budget > 0
    ensures TailsOf(fs, kind).tail(i, budget) == Lines(Kept(Part(parts, i), budget))
  {
    assert NoLineFeed(Part(parts, i));
    TailOfRecords(Part(parts, i), budget);
  }

  /** File by file the tails are those of the records. */
  ghost predicate TailsAre(tails: Tails, parts: Parts)
  {
    forall i, budget :: budget > 0 ==> tails.tail(i, budget) == Lines(Kept(Part(parts, i), budget))
  }

  lemma TailsAreRecords(fs: Files, kind: LogKind, parts: Parts)
    requires HoldsLines(fs, kind, parts)
    ensures TailsAre(TailsOf(fs, kind), parts)
  {
    forall i: nat, budget: nat | budget > 0
      ensures TailsOf(fs, kind).tail(i, budget) == Lines(Kept(Part(parts, i), budget))
    {
      ChunkOfPart(fs, kind, parts, i, budget);
    }
  }

  lemma {:induction false} ChunksAreRecords(tails: Tails, parts: Parts, i: nat, want: nat, budget: nat)
    requires WithinBudget(tails) && TailsAre(tails, parts)
    ensures Chunks(tails, i, want, budget) == Texts(Chosen(parts, i, want, budget))
    decreases want - i
  {
    if i < want && budget > 0 {
      var kept := Kept(Part(parts, i), budget);
      KeptFits(Part(parts, i), budget);
      ChunksAreRecords(tails, parts, i + 1, want, budget - |Lines(kept)|);
      TextsCons(kept, Chosen(parts, i + 1, want, budget - |Lines(kept)|));
    }
  }

  lemma {:induction false} ChosenFits(parts: Parts, i: nat, want: nat, budget: nat)
    ensures |Lines(Flat(Chosen(parts, i, want, budget)))| <= budget
    decreases want - i
  {
    if i < want && budget > 0 {
      var kept := Kept(Part(parts, i), budget);
      KeptFits(Part(parts, i), budget);
      var rest := Chosen(parts, i + 1, want, budget - |Lines(kept)|);
      ChosenFits(parts, i + 1, want, budget - |Lines(kept)|);
      TextsCons(kept, rest);
      LinesAppend(Flat(rest), kept);
    }
  }

  lemma {:induction false} LinesEndInLineFeed(rs: seq<string>)
    ensures Lines(rs) != "" ==> Lines(rs)[|Lines(rs)| - 1] == '\n'
    ensures Lines(rs) == "" <==> rs == []
  {
    if rs != [] {
      LinesEndInLineFeed(rs[1..]);
    }
  }

  lemma PrependRecords(rs: seq<string>, newer: string)
    ensures Prepend(Lines(rs), newer) == Lines(rs) + newer
  {
    LinesEndInLineFeed(rs);
    if rs == [] {
      assert "" + newer == newer;
    }
  }

  lemma {:induction false} AssembleRecords(chosen: Parts, newer: string)
    ensures Assemble(Texts(chosen), newer) == Lines(Flat(chosen)) + newer
    decreases |chosen|
  {
    if chosen == [] {
      assert "" + newer == newer;
    } else {
      var first, rest := chosen[0], chosen[1..];
      AssembleCons(Lines(first), Texts(rest), newer);
      PrependRecords(first, newer);
      AssembleRecords(rest, Lines(first) + newer);
      LinesAppend(Flat(rest), first);
      Regroup(Lines(Flat(rest)), Lines(first), newer);
    }
  }

  // ---------------------------------------------------------------------------------------------
  // Contiguity
  // ---------------------------------------------------------------------------------------------

  /** A file gave less than it has, and an older one gave records all the same. */
  predicate Gap(parts: Parts, i: nat, chosen: Parts)
    decreases |chosen|
  {
    chosen != [] &&
      (Gap(parts, i + 1, chosen[1..]) || (chosen[0] != Part(parts, i) && Flat(chosen[1..]) != []))
  }

  /** File k has a last record small enough for `budget` bytes: then the reader takes something. */
  predicate Gives(parts: Parts, k: nat, budget: nat)
  {
    var rs := Part(parts, k);
    rs != [] && (|Lines(rs)| <= budget || |rs[|rs| - 1]| + 1 < budget)
  }

  predicate AnyGives(parts: Parts, i: nat, want: nat, budget: nat)
    decreases want - i
  {
    i < want && (Gives(parts, i, budget) || AnyGives(parts, i + 1, want, budget))
  }

  /** From sizes alone: some file is cut and what is left of the budget still buys a record further back. */
  predicate Refills(parts: Parts, i: nat, want: nat, budget: nat)
    decreases want - i
  {
    if i >= want || budget == 0 then false
    else
      var rs := Part(parts, i);
      KeptFits(rs, budget);
      if |Lines(rs)| <= budget then Refills(parts, i + 1, want, budget - |Lines(rs)|)
      else AnyGives(parts, i + 1, want, budget - |Lines(Kept(rs, budget))|)
  }

  lemma LinesLength(rs: seq<string>)
    requires rs != []
    ensures |Lines(rs)| == |rs[0]| + 1 + |Lines(rs[1..])|
  {
  }

  lemma {:induction false} LastRecordFits(rs: seq<string>, budget: nat)
    requires rs != []
    ensures |Lines(rs)| >= |rs[|rs| - 1]| + 1
    ensures Fitting(rs, budget) != [] <==> |rs[|rs| - 1]| + 1 < budget
  {
    if |rs| == 1 {
      assert rs == [rs[0]];
      LinesOne(rs[0]);
      assert Fitting([], budget) == [] && rs[1..] == [];
    } else {
      LastRecordFits(rs[1..], budget);
      LinesLength(rs);
      assert rs[1..][|rs| - 2] == rs[|rs| - 1];
    }
  }

  lemma KeptGives(parts: Parts, k: nat, budget: nat)
    ensures Kept(Part(parts, k), budget) != [] <==> Gives(parts, k, budget)
  {
    if Part(parts, k) != [] {
      LastRecordFits(Part(parts, k), budget);
    }
  }

  lemma {:induction false} NothingForNothing(parts: Parts, i: nat, want: nat)
    ensures !AnyGives(parts, i, want, 0)
    decreases want - i
  {
    if i < want {
      NothingForNothing(parts, i + 1, want);
      LinesEndInLineFeed(Part(parts, i));
    }
  }

  lemma {:induction false} TakenIffGives(parts: Parts, i: nat, want: nat, budget: nat)
    ensures Flat(Chosen(parts, i, want, budget)) != [] <==> AnyGives(parts, i, want, budget)
    decreases want - i
  {
    if budget == 0 {
      NothingForNothing(parts, i, want);
    } else if i < want {
      var kept := Kept(Part(parts, i), budget);
      KeptFits(Part(parts, i), budget);
      KeptGives(parts, i, budget);
      var left := budget - |Lines(kept)|;
      TextsCons(kept, Chosen(parts, i + 1, want, left));
      if kept == [] {
        TakenIffGives(parts, i + 1, want, left);
      }
    }
  }

  lemma {:induction false} GapTakes(parts: Parts, i: nat, chosen: Parts)
    requires Gap(parts, i, chosen)
    ensures Flat(chosen) != []
    decreases |chosen|
  {
    if Gap(parts, i + 1, chosen[1..]) {
      GapTakes(parts, i + 1, chosen[1..]);
    }
  }

  lemma GapCons(parts: Parts, i: nat, first: seq<string>, rest: Parts)
    ensures Gap(parts, i, [first] + rest) <==> Gap(parts, i + 1, rest) || (first != Part(parts, i) && Flat(rest) != [])
  {
    assert ([first] + rest)[1..] == rest;
  }

  /** The reader leaves a gap exactly when the sizes say so. */
  lemma {:induction false} GapIffRefills(parts: Parts, i: nat, want: nat, budget: nat)
    ensures Gap(parts, i, Chosen(parts, i, want, budget)) <==> Refills(parts, i, want, budget)
    decreases want - i
  {
    if i < want && budget > 0 {
      var rs := Part(parts, i);
      var kept := Kept(rs, budget);
      KeptFits(rs, budget);
      KeptIsSuffix(rs, budget);
      var left := budget - |Lines(kept)|;
      var rest := Chosen(parts, i + 1, want, left);
      GapCons(parts, i, kept, rest);
      GapIffRefills(parts, i + 1, want, left);
      TakenIffGives(parts, i + 1, want, left);
      if Gap(parts, i + 1, rest) {
        GapTakes(parts, i + 1, rest);
      }
    }
  }

  function From(parts: Parts, i: nat): Parts
  {
    if i < |parts| then parts[i..] else []
  }

  lemma FlatFromStep(parts: Parts, i: nat)
    ensures Flat(From(parts, i)) == Flat(From(parts, i + 1)) + Part(parts, i)
  {
    if i < |parts| {
      assert parts[i..][1..] == From(parts, i + 1);
    }
  }

  lemma SuffixOfMore(a: seq<string>, b: seq<string>, c: seq<string>)
    requires IsSuffix(a, c)
    ensures IsSuffix(a, b + c)
  {
  }

  lemma EmptyBefore(a: seq<string>, b: seq<string>)
    requires a == []
    ensures a + b == b
  {
  }

  lemma {:induction false} WithoutGapIsSuffix(parts: Parts, i: nat, want: nat, budget: nat)
    requires !Gap(parts, i, Chosen(parts, i, want, budget))
    ensures IsSuffix(Flat(Chosen(parts, i, want, budget)), Flat(From(parts, i)))
    decreases want - i
  {
    if i < want && budget > 0 {
      var kept := Kept(Part(parts, i), budget);
      KeptFits(Part(parts, i), budget);
      KeptIsSuffix(Part(parts, i), budget);
      var left := budget - |Lines(kept)|;
      var rest := Chosen(parts, i + 1, want, left);
      GapCons(parts, i, kept, rest);
      TextsCons(kept, rest);
      FlatFromStep(parts, i);
      if kept == Part(parts, i) {
        WithoutGapIsSuffix(parts, i + 1, want, left);
        SuffixOfConcat(Flat(rest), Flat(From(parts, i + 1)), kept);
      } else {
        EmptyBefore(Flat(rest), kept);
        SuffixOfMore(kept, Flat(From(parts, i + 1)), Part(parts, i));
      }
    }
  }

  /** The multi-file reader over a log of newline-free records: whole records, from each file its newest,
      in order and within `maxBytes`; contiguous, ending in the newest record, unless a file was cut and
      the rest of the budget still bought a record of an older file, which the sizes alone decide. */
  lemma MultiTailReadsWholeRecords(fs: Files, kind: LogKind, parts: Parts, maxBytes: nat, maxFiles: nat)
    requires HoldsLines(fs, kind, parts)
    ensures
      var want := WantFiles(maxFiles);
      var chosen := Chosen(parts, 0, want, maxBytes);
      && ReadTails(fs, kind, maxBytes, maxFiles) == Lines(Flat(chosen)) && |Lines(Flat(chosen))| <= maxBytes
      && (Gap(parts, 0, chosen) <==> Refills(parts, 0, want, maxBytes))
      && (!Refills(parts, 0, want, maxBytes) ==> IsSuffix(Flat(chosen), Flat(parts)))
  {
    var want := WantFiles(maxFiles);
    var chosen := Chosen(parts, 0, want, maxBytes);
    TailsFit(fs, kind);
    TailsAreRecords(fs, kind, parts);
    ChunksAreRecords(TailsOf(fs, kind), parts, 0, want, maxBytes);
    ReadAssembles(TailsOf(fs, kind), 0, want, maxBytes, "");
    AssembleRecords(chosen, "");
    assert Lines(Flat(chosen)) + "" == Lines(Flat(chosen));
    ChosenFits(parts, 0, want, maxBytes);
    GapIffRefills(parts, 0, want, maxBytes);
    if !Gap(parts, 0, chosen) {
      WithoutGapIsSuffix(parts, 0, want, maxBytes);
      assert From(parts, 0) == parts;
    }
  }

  lemma {:induction false} ChosenAreSuffixes(parts: Parts, i: nat, want: nat, budget: nat, j: nat)
    requires j < |Chosen(parts, i, want, budget)|
    ensures IsSuffix(Chosen(parts, i, want, budget)[j], Part(parts, i + j))
    decreases want - i
  {
    KeptIsSuffix(Part(parts, i), budget);
    KeptFits(Part(parts, i), budget);
    if j > 0 {
      ChosenAreSuffixes(parts, i + 1, want, budget - |Lines(Kept(Part(parts, i), budget))|, j - 1);
    }
  }

  // ---------------------------------------------------------------------------------------------
  // After any run of appends
  // ---------------------------------------------------------------------------------------------

  lemma {:induction false} PartInFlat(parts: Parts, i: nat, r: string)
    requires i < |parts| && r in parts[i]
    ensures r in Flat(parts)
  {
    if i > 0 {
      PartInFlat(parts[1..], i - 1, r);
    }
  }

  lemma {:induction false} AcceptedWereAppended(cfg: LogConfig, records: seq<string>, r: string)
    requires r in Accepted(cfg, records)
    ensures r in records
  {
    if records != [] && r in Accepted(cfg, records[..|records| - 1]) {
      AcceptedWereAppended(cfg, records[..|records| - 1], r);
    }
  }

  /** Pieces that finished calls wrote, as their records. */
  function Stripped(pieces: seq<string>): (records: seq<string>)
    ensures |records| == |pieces|
  {
    seq(|pieces|, i requires 0 <= i < |pieces| => if pieces[i] == "" then "" else pieces[i][..|pieces[i]| - 1])
  }

  function AllStripped(parts: Parts): (records: Parts)
    ensures |records| == |parts|
  {
    seq(|parts|, i requires 0 <= i < |parts| => Stripped(parts[i]))
  }

  lemma {:induction false} FlatStripped(parts: Parts)
    ensures Flat(AllStripped(parts)) == Stripped(Flat(parts))
  {
    if parts != [] {
      assert AllStripped(parts)[1..] == AllStripped(parts[1..]);
      FlatStripped(parts[1..]);
    }
  }

  predicate EndsLine(piece: string)
  {
    piece != "" && piece[|piece| - 1] == '\n'
  }

  predicate AllWhole(pieces: seq<string>)
  {
    forall p :: p in pieces ==> EndsLine(p)
  }

  lemma StrippedComesBack(pieces: seq<string>)
    requires AllWhole(pieces)
    ensures AsPieces(Stripped(pieces)) == pieces
  {
    forall i | 0 <= i < |pieces|
      ensures AsPieces(Stripped(pieces))[i] == pieces[i]
    {
      assert EndsLine(pieces[i]);
    }
  }

  lemma SuffixStripped(held: seq<string>, all: seq<string>)
    requires IsSuffix(held, AsPieces(all))
    ensures AllWhole(held) && IsSuffix(Stripped(held), all)
  {
    forall i | 0 <= i < |held|
      ensures EndsLine(held[i]) && Stripped(held)[i] == all[|all| - |held| + i]
    {
      assert held[i] == AsPieces(all)[|all| - |held| + i];
    }
  }

  lemma WholePart(parts: Parts, i: nat)
    requires i < |parts| && AllWhole(Flat(parts))
    ensures AllWhole(parts[i])
  {
    forall p | p in parts[i]
      ensures EndsLine(p)
    {
      PartInFlat(parts, i, p);
    }
  }

  lemma NoLineFeedBefore(cfg: LogConfig, held: seq<string>, records: seq<string>)
    requires NoLineFeed(held) && NoLineFeed(records)
    ensures NoLineFeed(held + Accepted(cfg, records))
  {
    forall r | r in held + Accepted(cfg, records)
      ensures '\n' !in r
    {
      if r !in held {
        AcceptedWereAppended(cfg, records, r);
      }
    }
  }

  lemma {:induction false} FlatInPart(parts: Parts, r: string) returns (i: nat)
    requires r in Flat(parts)
    ensures i < |parts| && r in parts[i]
  {
    if r in parts[0] {
      i := 0;
    } else {
      var j := FlatInPart(parts[1..], r);
      i := j + 1;
    }
  }

  lemma OwnRecordsAfterRun(fs: Files, cfg: LogConfig, kind: LogKind, own: Parts, records: seq<string>)
    returns (next: Parts)
    requires Stores(fs, cfg, kind, own) && NoLineFeed(Flat(own)) && NoLineFeed(records)
    ensures Stores(Run(fs, cfg, kind, records), cfg, kind, next) && NoLineFeed(Flat(next))
    ensures IsSuffix(Flat(next), Flat(own) + Accepted(cfg, records))
  {
    var calls, all := Finished(records), Flat(own) + Accepted(cfg, records);
    var held := PartsAfter(cfg, AllPieces(own), calls);
    StoresHolds(fs, cfg, kind, own);
    RunIsFinishedCalls(fs, cfg, kind, records);
    RunKeepsNewestPieces(fs, cfg, kind, AllPieces(own), calls);
    PiecesSoFar(cfg, own, records, []);
    Nothing(AsPieces(Accepted(cfg, records)));
    Nothing(AsPieces(all));
    SuffixStripped(Flat(held), all);
    FlatStripped(held);
    NoLineFeedBefore(cfg, Flat(own), records);
    next := AllStripped(held);
    forall i | 0 <= i < |next|
      ensures Content(Run(fs, cfg, kind, records), kind, i) == Lines(next[i])
    {
      WholePart(held, i);
      StrippedComesBack(held[i]);
      PiecesAreLines(next[i]);
    }
  }

  /** The files that the configuration writes and shifts. */
  function Own(cfg: LogConfig, parts: Parts): (own: Parts)
    requires |parts| > BackupCount(cfg)
    ensures |own| == BackupCount(cfg) + 1
  {
    parts[..BackupCount(cfg) + 1]
  }

  /** Backups beyond those, left by a configuration that kept more. */
  function Beyond(cfg: LogConfig, parts: Parts): Parts
    requires |parts| > BackupCount(cfg)
  {
    parts[BackupCount(cfg) + 1..]
  }

  lemma OwnThenBeyond(cfg: LogConfig, parts: Parts)
    requires |parts| > BackupCount(cfg)
    ensures parts == Own(cfg, parts) + Beyond(cfg, parts)
  {
  }

  lemma FlatJoined(parts: Parts, a: Parts, b: Parts)
    requires parts == a + b
    ensures Flat(parts) == Flat(b) + Flat(a)
  {
    FlatAppend(a, b);
  }

  lemma FlatOwnAndBeyond(cfg: LogConfig, parts: Parts)
    requires |parts| > BackupCount(cfg)
    ensures Flat(parts) == Flat(Beyond(cfg, parts)) + Flat(Own(cfg, parts))
  {
    OwnThenBeyond(cfg, parts);
    FlatJoined(parts, Own(cfg, parts), Beyond(cfg, parts));
  }

  lemma OwnIsStored(fs: Files, cfg: LogConfig, kind: LogKind, parts: Parts)
    requires HoldsLines(fs, kind, parts) && |parts| > BackupCount(cfg)
    ensures Stores(fs, cfg, kind, Own(cfg, parts)) && NoLineFeed(Flat(Own(cfg, parts)))
  {
    var own := Own(cfg, parts);
    forall i | 0 <= i < |own|
      ensures Content(fs, kind, i) == Lines(own[i])
    {
      assert Content(fs, kind, i) == Lines(Part(parts, i));
    }
    forall r | r in Flat(own)
      ensures '\n' !in r
    {
      var i := FlatInPart(own, r);
      assert NoLineFeed(Part(parts, i));
    }
  }

  /** What a directory of records holds after any run of finished appends; backups that the configuration
      does not reach stay as they are. */
  lemma RecordsAfterRun(fs: Files, cfg: LogConfig, kind: LogKind, start: Parts, records: seq<string>)
    returns (parts: Parts)
    requires HoldsLines(fs, kind, start) && |start| > BackupCount(cfg) && NoLineFeed(records)
    ensures HoldsLines(Run(fs, cfg, kind, records), kind, parts) && |parts| == |start|
    ensures IsSuffix(Flat(Own(cfg, parts)), Flat(Own(cfg, start)) + Accepted(cfg, records))
    ensures Beyond(cfg, parts) == Beyond(cfg, start)
  {
    OwnIsStored(fs, cfg, kind, start);
    var own := OwnRecordsAfterRun(fs, cfg, kind, Own(cfg, start), records);
    parts := own + Beyond(cfg, start);
    assert Own(cfg, parts) == own;
    RunIsFinishedCalls(fs, cfg, kind, records);
    forall i: nat
      ensures Content(Run(fs, cfg, kind, records), kind, i) == Lines(Part(parts, i)) && NoLineFeed(Part(parts, i))
    {
      if i < |own| {
        PartOfFlat(own, i);
      } else {
        assert Part(parts, i) == Part(start, i);
        assert Content(fs, kind, i) == Lines(Part(start, i)) && NoLineFeed(Part(start, i));
        RunTouchesOwnFiles(fs, cfg, kind, Finished(records), Log(kind, i));
      }
    }
  }

  lemma PartOfFlat(parts: Parts, i: nat)
    requires i < |parts| && NoLineFeed(Flat(parts))
    ensures NoLineFeed(parts[i])
  {
    forall r | r in parts[i]
      ensures '\n' !in r
    {
      PartInFlat(parts, i, r);
    }
  }

  /** The reader depends on no more files than it asks for. */
  predicate Agree(parts: Parts, others: Parts, want: nat)
  {
    forall k :: 0 <= k < want ==> Part(parts, k) == Part(others, k)
  }

  lemma {:induction false} ChosenFromWanted(parts: Parts, others: Parts, i: nat, want: nat, budget: nat)
    requires Agree(parts, others, want)
    ensures Chosen(parts, i, want, budget) == Chosen(others, i, want, budget)
    ensures i <= want ==> |Chosen(parts, i, want, budget)| <= want - i
    decreases want - i
  {
    if i < want && budget > 0 {
      assert Part(parts, i) == Part(others, i);
      KeptFits(Part(parts, i), budget);
      ChosenFromWanted(parts, others, i + 1, want, budget - |Lines(Kept(Part(parts, i), budget))|);
    }
  }

  /** Without a refill the reader gives the newest records of the files it asks for, whatever is beyond. */
  lemma NewestOfWanted(parts: Parts, others: Parts, want: nat, budget: nat)
    requires Agree(parts, others, want) && !Refills(parts, 0, want, budget)
    ensures IsSuffix(Flat(Chosen(parts, 0, want, budget)), Flat(others))
  {
    ChosenFromWanted(parts, others, 0, want, budget);
    GapIffRefills(parts, 0, want, budget);
    SameGap(parts, others, 0, want, Chosen(parts, 0, want, budget));
    WithoutGapIsSuffix(others, 0, want, budget);
    assert From(others, 0) == others;
  }

  lemma {:induction false} SameGap(parts: Parts, others: Parts, i: nat, want: nat, chosen: Parts)
    requires Agree(parts, others, want) && i + |chosen| <= want
    ensures Gap(parts, i, chosen) <==> Gap(others, i, chosen)
    decreases |chosen|
  {
    if chosen != [] {
      assert Part(parts, i) == Part(others, i);
      SameGap(parts, others, i + 1, want, chosen[1..]);
    }
  }

  /** Append any newline-free records to a directory of such, then read: the text is records held before
      or accepted, whole and in order, and without a refill it is exactly the newest ones.  Between the
      files of this configuration and backups beyond them records may have been dropped: the newest ones
      are those of both, and of the log alone when no such backup is asked for. */
  lemma TailAfterRun(fs: Files, cfg: LogConfig, kind: LogKind, start: Parts, records: seq<string>, maxBytes: nat, maxFiles: nat)
    returns (parts: Parts)
    requires HoldsLines(fs, kind, start) && |start| > BackupCount(cfg) && NoLineFeed(records)
    ensures HoldsLines(Run(fs, cfg, kind, records), kind, parts) && |parts| == |start|
    ensures IsSuffix(Flat(Own(cfg, parts)), Flat(Own(cfg, start)) + Accepted(cfg, records))
    ensures
      var want := WantFiles(maxFiles);
      var chosen := Chosen(parts, 0, want, maxBytes);
      && ReadTails(Run(fs, cfg, kind, records), kind, maxBytes, maxFiles) == Lines(Flat(chosen))
      && |Lines(Flat(chosen))| <= maxBytes
      && (!Refills(parts, 0, want, maxBytes) ==>
            && IsSuffix(Flat(chosen), Flat(Beyond(cfg, start)) + Flat(Own(cfg, parts)))
            && (want <= BackupCount(cfg) + 1 || Flat(Beyond(cfg, start)) == [] ==>
                  IsSuffix(Flat(chosen), Flat(Own(cfg, start)) + Accepted(cfg, records))))
  {
    var ps := RecordsAfterRun(fs, cfg, kind, start, records);
    parts := ps;
    MultiTailReadsWholeRecords(Run(fs, cfg, kind, records), kind, parts, maxBytes, maxFiles);
    FlatOwnAndBeyond(cfg, parts);
    var want, own := WantFiles(maxFiles), Own(cfg, parts);
    var chosen := Chosen(parts, 0, want, maxBytes);
    if !Refills(parts, 0, want, maxBytes) && (want <= BackupCount(cfg) + 1 || Flat(Beyond(cfg, start)) == []) {
      if want <= BackupCount(cfg) + 1 {
        NewestOfWanted(parts, own, want, maxBytes);
      } else {
        EmptyBefore(Flat(Beyond(cfg, start)), Flat(own));
      }
      SuffixOfSuffix(Flat(chosen), Flat(own), Flat(Own(cfg, start)) + Accepted(cfg, records));
    }
  }

  /** When every file asked for fits into the budget, all of them are returned. */
  lemma {:induction false} RoomyBudgetNeverRefills(parts: Parts, i: nat, want: nat, budget: nat)
    requires |Lines(Flat(From(parts, i)))| <= budget
    ensures !Refills(parts, i, want, budget)
    decreases want - i
  {
    if i < want && budget > 0 {
      FlatFromStep(parts, i);
      LinesAppend(Flat(From(parts, i + 1)), Part(parts, i));
      RoomyBudgetNeverRefills(parts, i + 1, want, budget - |Lines(Part(parts, i))|);
    }
  }

  /** The gap is real: the active file is cut before its last record, and the backup's record still
      fits into what is left, so "aaaa" is missing between "c" and "b". */
  lemma RefilledBudgetSkipsARecord()
    ensures
      var parts: Parts := [["aaaa", "b"], ["c"]];
      Flat(parts) == ["c", "aaaa", "b"] && Flat(Chosen(parts, 0, 2, 5)) == ["c", "b"]
  {
    var parts: Parts := [["aaaa", "b"], ["c"]];
    assert parts[1..] == [["c"]] && [["c"]][1..] == [];
    assert Flat([["c"]]) == ["c"];
    LinesOne("b");
    LinesOne("c");
    assert ["aaaa", "b"][1..] == ["b"];
    assert Lines(["aaaa", "b"]) == "aaaa" + "\n" + "b\n";
    assert Kept(["aaaa", "b"], 5) == ["b"];
    assert Kept(["c"], 3) == ["c"];
    assert Chosen(parts, 2, 2, 1) == [];
    assert Chosen(parts, 1, 2, 3) == [["c"]];
    TextsCons(["b"], [["c"]]);
  }
}
