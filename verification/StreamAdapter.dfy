/** Text deltas of the assistant, collected and handed to a callback in larger pieces. */
module StreamAdapter {
  import opened Text

  datatype Op = Delta(text: string) | FlushNow

  /** The deltas handed over in one callback, and whether an explicit flush did it. */
  datatype Emission = Emission(parts: seq<string>, flushed: bool)

  /** What was handed over, and the deltas still held back. */
  datatype Progress = Progress(emissions: seq<Emission>, held: seq<string>)

  /** One operation; without a callback nothing is handed over, but a flush still drops what is held. */
  function Step(p: Progress, op: Op, flushBytes: nat, callback: bool): Progress
  {
    match op
    case Delta(d) =>
      if d == "" then p
      else if callback && |Concat(p.held + [d])| >= flushBytes then
        Progress(p.emissions + [Emission(p.held + [d], false)], [])
      else Progress(p.emissions, p.held + [d])
    case FlushNow =>
      Progress(if callback && p.held != [] then p.emissions + [Emission(p.held, true)] else p.emissions, [])
  }

  /** After a series of operations that starts with a reset. */
  function After(ops: seq<Op>, flushBytes: nat, callback: bool): Progress
  {
    if ops == [] then Progress([], [])
    else Step(After(ops[..|ops| - 1], flushBytes, callback), ops[|ops| - 1], flushBytes, callback)
  }

  /** The non-empty deltas, in order. */
  function Deltas(ops: seq<Op>): seq<string>
  {
    if ops == [] then []
    else
      var last := ops[|ops| - 1];
      Deltas(ops[..|ops| - 1]) + if last.Delta? && last.text != "" then [last.text] else []
  }

  function Handed(emissions: seq<Emission>): seq<string>
  {
    if emissions == [] then [] else Handed(emissions[..|emissions| - 1]) + emissions[|emissions| - 1].parts
  }

  /** The texts the callback gets. */
  function TextsOf(emissions: seq<Emission>): (texts: seq<string>)
    ensures |texts| == |emissions|
  {
    seq(|emissions|, i requires 0 <= i < |emissions| => Concat(emissions[i].parts))
  }

  /** Except by a flush, a piece is handed over as soon as it is large enough and no sooner. */
  predicate CutInTime(e: Emission, flushBytes: nat)
  {
    e.parts != [] &&
      (!e.flushed ==> |Concat(e.parts)| >= flushBytes && |Concat(e.parts[..|e.parts| - 1])| < flushBytes)
  }

  lemma HandedSnoc(emissions: seq<Emission>, e: Emission)
    ensures Handed(emissions + [e]) == Handed(emissions) + e.parts
  {
    assert (emissions + [e])[..|emissions|] == emissions;
  }

  /** No delta is lost, doubled or reordered: what was handed over and what is held are the deltas since
      the reset.  What is held is shorter than the limit, and pieces are cut in time. */
  lemma {:induction false} DeltasAreConserved(ops: seq<Op>, flushBytes: nat)
    requires flushBytes > 0
    ensures Conserves(After(ops, flushBytes, true), Deltas(ops), flushBytes)
  {
    if ops != [] {
      var n := |ops| - 1;
      DeltasAreConserved(ops[..n], flushBytes);
      StepConserves(After(ops[..n], flushBytes, true), ops[n], flushBytes, Deltas(ops[..n]));
    }
  }

  predicate AllInTime(emissions: seq<Emission>, flushBytes: nat)
  {
    forall i :: 0 <= i < |emissions| ==> CutInTime(emissions[i], flushBytes)
  }

  predicate Conserves(p: Progress, deltas: seq<string>, flushBytes: nat)
  {
    Handed(p.emissions) + p.held == deltas && |Concat(p.held)| < flushBytes && AllInTime(p.emissions, flushBytes)
  }

  lemma StepConserves(p: Progress, op: Op, flushBytes: nat, deltas: seq<string>)
    requires flushBytes > 0 && Conserves(p, deltas, flushBytes)
    ensures Conserves(Step(p, op, flushBytes, true),
      deltas + (if op.Delta? && op.text != "" then [op.text] else []), flushBytes)
  {
    Nothing(deltas);
    match op
    case Delta(d) =>
      Regroup(Handed(p.emissions), p.held, [d]);
      if d != "" && |Concat(p.held + [d])| >= flushBytes {
        EmissionInTime(p, d, flushBytes);
        HandingConserves(p.emissions, Emission(p.held + [d], false), flushBytes);
      }
    case FlushNow =>
      if p.held != [] {
        HandingConserves(p.emissions, Emission(p.held, true), flushBytes);
      }
  }

  lemma HandingConserves(emissions: seq<Emission>, e: Emission, flushBytes: nat)
    requires AllInTime(emissions, flushBytes) && CutInTime(e, flushBytes)
    ensures Handed(emissions + [e]) + [] == Handed(emissions) + e.parts && AllInTime(emissions + [e], flushBytes)
  {
    HandedSnoc(emissions, e);
    Nothing(Handed(emissions) + e.parts);
  }

  lemma EmissionInTime(p: Progress, d: string, flushBytes: nat)
    requires |Concat(p.held)| < flushBytes && |Concat(p.held + [d])| >= flushBytes
    ensures CutInTime(Emission(p.held + [d], false), flushBytes)
  {
    assert (p.held + [d])[..|p.held|] == p.held;
  }

  lemma {:induction false} HandedText(emissions: seq<Emission>)
    ensures Concat(Handed(emissions)) == Concat(TextsOf(emissions))
  {
    if emissions != [] {
      var n := |emissions| - 1;
      HandedText(emissions[..n]);
      assert TextsOf(emissions) == TextsOf(emissions[..n]) + [Concat(emissions[n].parts)];
      ConcatAppend(Handed(emissions[..n]), emissions[n].parts);
      ConcatAppend(TextsOf(emissions[..n]), [Concat(emissions[n].parts)]);
      ConcatOne(Concat(emissions[n].parts));
    }
  }

  /** In text: what the callback got, followed by what is held, is what the deltas say. */
  lemma TextIsConserved(ops: seq<Op>, flushBytes: nat)
    requires flushBytes > 0
    ensures
      var p := After(ops, flushBytes, true);
      Concat(TextsOf(p.emissions)) + Concat(p.held) == Concat(Deltas(ops))
  {
    var p := After(ops, flushBytes, true);
    DeltasAreConserved(ops, flushBytes);
    HandedText(p.emissions);
    ConcatAppend(Handed(p.emissions), p.held);
  }

  // ---------------------------------------------------------------------------------------------
  // The adapter
  // ---------------------------------------------------------------------------------------------

  /** The adapter's fields hold this progress. */
  ghost predicate Shows(p: Progress, deltas: seq<string>, before: seq<string>, emitted: seq<string>,
                        pending: string, assistant: string, sawDelta: bool)
  {
    && emitted == before + TextsOf(p.emissions)
    && pending == Concat(p.held) && NoneEmpty(p.held)
    && assistant == Concat(deltas) && (sawDelta <==> deltas != [])
  }

  predicate NoneEmpty(held: seq<string>) { forall i :: 0 <= i < |held| ==> held[i] != "" }

  class Adapter {
    const flushBytes: nat
    const callback: bool
    var assistant: string
    var pending: string
    var sawDelta: bool
    /** The texts the callback has been given, ever. */
    var emitted: seq<string>
    ghost var before: seq<string>  // those given before the last reset
    ghost var ops: seq<Op>         // what was done since

    ghost predicate Valid()
      reads this
    {
      flushBytes > 0
      && Shows(After(ops, flushBytes, callback), Deltas(ops), before, emitted, pending, assistant, sawDelta)
    }

    constructor (flushBytes: nat, callback: bool)
      ensures Valid() && ops == [] && before == [] && this.callback == callback
      ensures this.flushBytes == if flushBytes > 0 then flushBytes else 128
    {
      this.flushBytes := if flushBytes > 0 then flushBytes else 128;
      this.callback := callback;
      assistant, pending, sawDelta, emitted, before, ops := "", "", false, [], [], [];
    }

    method Reset()
      requires Valid()
      modifies this
      ensures Valid() && ops == [] && emitted == before == old(emitted)
      ensures assistant == pending == "" && !sawDelta
    {
      assistant, pending, sawDelta, before, ops := "", "", false, emitted, [];
    }

    method AssistantDelta(d: string)
      requires Valid()
      modifies this
      ensures Valid() && ops == old(ops) + [Delta(d)] && before == old(before)
      ensures assistant == old(assistant) + d
    {
      ghost var p, deltas := After(ops, flushBytes, callback), Deltas(ops);
      OneMoreOp(ops, Delta(d), flushBytes, callback);
      ops := ops + [Delta(d)];
      if d == "" {
        Nothing(deltas);
        Nothing(assistant);
        return;
      }
      DeltaShows(p, deltas, d, before);
      sawDelta := true;
      assistant := assistant + d;
      pending := pending + d;
      if callback && |pending| >= flushBytes {
        emitted := emitted + [pending];
        pending := "";
      }
    }

    /** After it, with a callback, everything has been handed over. */
    method Flush()
      requires Valid()
      modifies this
      ensures Valid() && ops == old(ops) + [FlushNow] && before == old(before)
      ensures pending == "" && assistant == old(assistant)
      ensures callback ==> Concat(emitted) == Concat(before) + assistant
    {
      ghost var p, deltas := After(ops, flushBytes, callback), Deltas(ops);
      OneMoreOp(ops, FlushNow, flushBytes, callback);
      Nothing(deltas);
      HeldIsText(p.held);
      OneMoreText(before, p.emissions, Emission(p.held, true));
      ops := ops + [FlushNow];
      if callback && pending != "" {
        emitted := emitted + [pending];
      }
      pending := "";
      if callback {
        AllHanded(ops, flushBytes, before);
      }
    }
  }

  /** A delta is collected, or handed over with what is held. */
  lemma DeltaShows(p: Progress, deltas: seq<string>, d: string, before: seq<string>)
    requires d != "" && NoneEmpty(p.held)
    ensures Concat(p.held + [d]) == Concat(p.held) + d && NoneEmpty(p.held + [d])
    ensures Concat(deltas + [d]) == Concat(deltas) + d
    ensures before + TextsOf(p.emissions + [Emission(p.held + [d], false)]) ==
      before + TextsOf(p.emissions) + [Concat(p.held + [d])]
  {
    ConcatAppend(p.held, [d]);
    ConcatAppend(deltas, [d]);
    ConcatOne(d);
    OneMoreText(before, p.emissions, Emission(p.held + [d], false));
  }

  lemma AllHanded(ops: seq<Op>, flushBytes: nat, before: seq<string>)
    requires flushBytes > 0 && After(ops, flushBytes, true).held == []
    ensures Concat(before + TextsOf(After(ops, flushBytes, true).emissions)) == Concat(before) + Concat(Deltas(ops))
  {
    TextIsConserved(ops, flushBytes);
    ConcatAppend(before, TextsOf(After(ops, flushBytes, true).emissions));
    Nothing(Concat(TextsOf(After(ops, flushBytes, true).emissions)));
  }

  lemma OneMoreOp(ops: seq<Op>, op: Op, flushBytes: nat, callback: bool)
    ensures After(ops + [op], flushBytes, callback) == Step(After(ops, flushBytes, callback), op, flushBytes, callback)
    ensures Deltas(ops + [op]) == Deltas(ops) + if op.Delta? && op.text != "" then [op.text] else []
  {
    assert (ops + [op])[..|ops|] == ops;
  }

  lemma OneMoreText(before: seq<string>, emissions: seq<Emission>, e: Emission)
    ensures before + TextsOf(emissions + [e]) == before + TextsOf(emissions) + [Concat(e.parts)]
  {
    assert TextsOf(emissions + [e]) == TextsOf(emissions) + [Concat(e.parts)];
    Regroup(before, TextsOf(emissions), [Concat(e.parts)]);
  }

  lemma {:induction false} HeldIsText(held: seq<string>)
    requires NoneEmpty(held)
    ensures Concat(held) == "" <==> held == []
  {
    if held != [] {
      assert held[0] != "";
    }
  }
}
