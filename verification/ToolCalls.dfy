/** Reassembly of tool calls from the fragments of a streamed answer. */
module ToolCalls {
  import opened Text

  /** A fragment; -1 is an unknown index, "" an absent field. */
  datatype Delta = Delta(index: int, id: string, name: string, arguments: string)

  datatype Call = Call(id: string, name: string, arguments: string)

  const EMPTY := Call("", "", "")

  // ---------------------------------------------------------------------------------------------
  // What the fragments mean
  // ---------------------------------------------------------------------------------------------

  /** The fragments of call `k`, in the order they came. */
  function Of(deltas: seq<Delta>, k: int): seq<Delta>
  {
    if deltas == [] then []
    else
      var n := |deltas| - 1;
      Of(deltas[..n], k) + if deltas[n].index == k then [deltas[n]] else []
  }

  function LastId(deltas: seq<Delta>): string
  {
    if deltas == [] then ""
    else
      var n := |deltas| - 1;
      if deltas[n].id != "" then deltas[n].id else LastId(deltas[..n])
  }

  function LastName(deltas: seq<Delta>): string
  {
    if deltas == [] then ""
    else
      var n := |deltas| - 1;
      if deltas[n].name != "" then deltas[n].name else LastName(deltas[..n])
  }

  function Arguments(deltas: seq<Delta>): string
  {
    if deltas == [] then ""
    else
      var n := |deltas| - 1;
      Arguments(deltas[..n]) + deltas[n].arguments
  }

  function Merged(deltas: seq<Delta>): Call
  {
    Call(LastId(deltas), LastName(deltas), Arguments(deltas))
  }

  /** One more than the greatest index. */
  function Width(deltas: seq<Delta>): nat
  {
    if deltas == [] then 0
    else
      var n := |deltas| - 1;
      Max(Width(deltas[..n]), deltas[n].index + 1)
  }

  function Reassembled(deltas: seq<Delta>): (calls: seq<Call>)
    ensures |calls| == Width(deltas)
  {
    seq(Width(deltas), k => Merged(Of(deltas, k)))
  }

  predicate LastIdAt(deltas: seq<Delta>, i: nat)
  {
    i < |deltas| && deltas[i].id != "" && forall j :: i < j < |deltas| ==> deltas[j].id == ""
  }

  /** The id is that of the last fragment that has one. */
  lemma {:induction false} LastIdInWords(deltas: seq<Delta>)
    ensures if LastId(deltas) == "" then forall i :: 0 <= i < |deltas| ==> deltas[i].id == ""
      else exists i: nat :: LastIdAt(deltas, i) && deltas[i].id == LastId(deltas)
  {
    if deltas != [] {
      var before := deltas[..|deltas| - 1];
      if deltas[|deltas| - 1].id != "" {
        assert LastIdAt(deltas, |deltas| - 1);
      } else {
        LastIdInWords(before);
        if LastId(before) != "" {
          var i: nat :| LastIdAt(before, i) && before[i].id == LastId(before);
          LastIdStays(deltas, i);
        }
      }
    }
  }

  lemma LastIdStays(deltas: seq<Delta>, i: nat)
    requires deltas != [] && deltas[|deltas| - 1].id == "" && LastIdAt(deltas[..|deltas| - 1], i)
    ensures LastIdAt(deltas, i)
  {
    assert forall j :: 0 <= j < |deltas| - 1 ==> deltas[j] == deltas[..|deltas| - 1][j];
  }

  predicate LastNameAt(deltas: seq<Delta>, i: nat)
  {
    i < |deltas| && deltas[i].name != "" && forall j :: i < j < |deltas| ==> deltas[j].name == ""
  }

  /** So is the name. */
  lemma {:induction false} LastNameInWords(deltas: seq<Delta>)
    ensures if LastName(deltas) == "" then forall i :: 0 <= i < |deltas| ==> deltas[i].name == ""
      else exists i: nat :: LastNameAt(deltas, i) && deltas[i].name == LastName(deltas)
  {
    if deltas != [] {
      var before := deltas[..|deltas| - 1];
      if deltas[|deltas| - 1].name != "" {
        assert LastNameAt(deltas, |deltas| - 1);
      } else {
        LastNameInWords(before);
        if LastName(before) != "" {
          var i: nat :| LastNameAt(before, i) && before[i].name == LastName(before);
          LastNameStays(deltas, i);
        }
      }
    }
  }

  lemma LastNameStays(deltas: seq<Delta>, i: nat)
    requires deltas != [] && deltas[|deltas| - 1].name == "" && LastNameAt(deltas[..|deltas| - 1], i)
    ensures LastNameAt(deltas, i)
  {
    assert forall j :: 0 <= j < |deltas| - 1 ==> deltas[j] == deltas[..|deltas| - 1][j];
  }

  function ArgumentTexts(deltas: seq<Delta>): (texts: seq<string>)
    ensures |texts| == |deltas|
  {
    seq(|deltas|, i requires 0 <= i < |deltas| => deltas[i].arguments)
  }

  /** The arguments are those of all fragments, in order. */
  lemma {:induction false} ArgumentsInWords(deltas: seq<Delta>)
    ensures Arguments(deltas) == Concat(ArgumentTexts(deltas))
  {
    if deltas != [] {
      var n := |deltas| - 1;
      ArgumentsInWords(deltas[..n]);
      assert ArgumentTexts(deltas) == ArgumentTexts(deltas[..n]) + [deltas[n].arguments];
      ConcatAppend(ArgumentTexts(deltas[..n]), [deltas[n].arguments]);
      ConcatOne(deltas[n].arguments);
    }
  }

  // ---------------------------------------------------------------------------------------------
  // One fragment more
  // ---------------------------------------------------------------------------------------------

  function Overwrite(call: Call, d: Delta): Call
  {
    Call(if d.id != "" then d.id else call.id,
         if d.name != "" then d.name else call.name,
         call.arguments + d.arguments)
  }

  function Grown(calls: seq<Call>, n: int): seq<Call>
  {
    if n <= |calls| then calls else calls + seq(n - |calls|, _ => EMPTY)
  }

  function Put(calls: seq<Call>, d: Delta): seq<Call>
  {
    if d.index < 0 then calls
    else
      var grown := Grown(calls, d.index + 1);
      grown[d.index := Overwrite(grown[d.index], d)]
  }

  lemma OfAnother(deltas: seq<Delta>, d: Delta, k: int)
    ensures Of(deltas + [d], k) == Of(deltas, k) + if d.index == k then [d] else []
  {
    assert (deltas + [d])[..|deltas|] == deltas;
  }

  lemma WidthAnother(deltas: seq<Delta>, d: Delta)
    ensures Width(deltas + [d]) == Max(Width(deltas), d.index + 1)
  {
    assert (deltas + [d])[..|deltas|] == deltas;
  }

  lemma MergedAnother(deltas: seq<Delta>, d: Delta)
    ensures Merged(deltas + [d]) == Overwrite(Merged(deltas), d)
  {
    assert (deltas + [d])[..|deltas|] == deltas;
  }

  /** Nothing lies past the width. */
  lemma {:induction false} NoFragmentPastWidth(deltas: seq<Delta>, k: nat)
    ensures k >= Width(deltas) ==> Of(deltas, k) == []
  {
    if deltas != [] {
      NoFragmentPastWidth(deltas[..|deltas| - 1], k);
    }
  }

  lemma PutAnother(deltas: seq<Delta>, d: Delta)
    ensures Put(Reassembled(deltas), d) == Reassembled(deltas + [d])
  {
    var calls, next := Put(Reassembled(deltas), d), Reassembled(deltas + [d]);
    WidthAnother(deltas, d);
    forall k | 0 <= k < |next|
      ensures calls[k] == next[k]
    {
      CallAnother(deltas, d, k);
      NoFragmentPastWidth(deltas, k);
    }
  }

  lemma CallAnother(deltas: seq<Delta>, d: Delta, k: nat)
    ensures Merged(Of(deltas + [d], k)) ==
      if d.index == k then Overwrite(Merged(Of(deltas, k)), d) else Merged(Of(deltas, k))
  {
    OfAnother(deltas, d, k);
    MergedAnother(Of(deltas, k), d);
    Nothing(Of(deltas, k));
  }

  // ---------------------------------------------------------------------------------------------
  // What does not matter
  // ---------------------------------------------------------------------------------------------

  ghost predicate SameCalls(a: seq<Delta>, b: seq<Delta>)
  {
    forall k: nat :: Of(a, k) == Of(b, k)
  }

  /** The order between fragments of different calls. */
  lemma OnlyOrderWithinACallMatters(a: seq<Delta>, b: seq<Delta>)
    requires SameCalls(a, b)
    ensures Reassembled(a) == Reassembled(b)
  {
    WidthAtMost(a, b);
    WidthAtMost(b, a);
  }

  lemma WidthAtMost(a: seq<Delta>, b: seq<Delta>)
    requires SameCalls(a, b)
    ensures Width(a) <= Width(b)
  {
    if Width(a) > 0 {
      var k: nat := Width(a) - 1;
      assert Of(a, k) == Of(b, k);
      LastCallHasAFragment(a);
      NoFragmentPastWidth(b, k);
    }
  }

  lemma {:induction false} LastCallHasAFragment(deltas: seq<Delta>)
    requires Width(deltas) > 0
    ensures Of(deltas, Width(deltas) - 1) != []
  {
    var n := |deltas| - 1;
    if deltas[n].index + 1 != Width(deltas) {
      LastCallHasAFragment(deltas[..n]);
    }
  }

  lemma {:induction false} OfConcat(a: seq<Delta>, b: seq<Delta>, k: int)
    ensures Of(a + b, k) == Of(a, k) + Of(b, k)
  {
    if b == [] {
      assert a + b == a;
    } else {
      var n := |b| - 1;
      assert a + b == (a + b[..n]) + [b[n]];
      OfConcat(a, b[..n], k);
      OfAnother(a + b[..n], b[n], k);
    }
  }

  ghost predicate DifferentCalls(a: seq<Delta>, b: seq<Delta>)
  {
    forall i, j :: 0 <= i < |a| && 0 <= j < |b| ==> a[i].index != b[j].index
  }

  /** Neighbouring batches for different calls may change places, wherever they stand. */
  lemma DifferentCallsCommute(before: seq<Delta>, a: seq<Delta>, b: seq<Delta>, after: seq<Delta>)
    requires DifferentCalls(a, b)
    ensures Reassembled(before + a + b + after) == Reassembled(before + b + a + after)
  {
    var left, right := before + a + b + after, before + b + a + after;
    forall k: nat
      ensures Of(left, k) == Of(right, k)
    {
      SwappedOf(before, a, b, after, k);
    }
    OnlyOrderWithinACallMatters(left, right);
  }

  lemma SwappedOf(before: seq<Delta>, a: seq<Delta>, b: seq<Delta>, after: seq<Delta>, k: nat)
    requires DifferentCalls(a, b)
    ensures Of(before + a + b + after, k) == Of(before + b + a + after, k)
  {
    OfFour(before, a, b, after, k);
    OfFour(before, b, a, after, k);
    Nothing(Of(before, k));
    if exists i :: 0 <= i < |a| && a[i].index == k {
      NoneOf(b, k);
    } else {
      NoneOf(a, k);
    }
    Nothing(Of(before, k) + Of(a, k));
    Nothing(Of(before, k) + Of(b, k));
  }

  lemma OfFour(a: seq<Delta>, b: seq<Delta>, c: seq<Delta>, d: seq<Delta>, k: int)
    ensures Of(a + b + c + d, k) == Of(a, k) + Of(b, k) + Of(c, k) + Of(d, k)
  {
    OfConcat(a + b + c, d, k);
    OfConcat(a + b, c, k);
    OfConcat(a, b, k);
  }

  lemma {:induction false} NoneOf(deltas: seq<Delta>, k: int)
    requires forall i :: 0 <= i < |deltas| ==> deltas[i].index != k
    ensures Of(deltas, k) == []
  {
    if deltas != [] {
      NoneOf(deltas[..|deltas| - 1], k);
    }
  }

  /** What a reader saw of a call's arguments stays: later fragments only add to it. */
  lemma {:induction false} ArgumentsOnlyGrow(seen: seq<Delta>, more: seq<Delta>)
    ensures Width(seen) <= Width(seen + more)
    ensures forall k :: 0 <= k < Width(seen) ==>
      Reassembled(seen)[k].arguments <= Reassembled(seen + more)[k].arguments
  {
    if more == [] {
      assert seen + more == seen;
    } else {
      var n := |more| - 1;
      var middle := seen + more[..n];
      assert seen + more == middle + [more[n]];
      ArgumentsOnlyGrow(seen, more[..n]);
      PutAnother(middle, more[n]);
      WidthAnother(middle, more[n]);
    }
  }

  // ---------------------------------------------------------------------------------------------
  // The accumulator
  // ---------------------------------------------------------------------------------------------

  class Accumulator {
    var calls: seq<Call>
    /** Every fragment since the last reset. */
    ghost var seen: seq<Delta>

    ghost predicate Valid()
      reads this
    {
      calls == Reassembled(seen)
    }

    constructor ()
      ensures Valid() && seen == []
    {
      calls, seen := [], [];
    }

    method Reset()
      modifies this
      ensures Valid() && seen == [] && calls == []
    {
      calls, seen := [], [];
    }

    /** The calls depend on the fragments seen and not on how they were batched. */
    method Apply(deltas: seq<Delta>)
      requires Valid()
      modifies this
      ensures Valid() && seen == old(seen) + deltas
    {
      Nothing(seen);
      for i := 0 to |deltas|
        invariant Valid() && seen == old(seen) + deltas[..i]
      {
        PutAnother(seen, deltas[i]);
        Regroup(old(seen), deltas[..i], [deltas[i]]);
        assert deltas[..i] + [deltas[i]] == deltas[..i + 1];
        ApplyOne(deltas[i]);
        seen := seen + [deltas[i]];
      }
      assert deltas[..|deltas|] == deltas;
    }

    method ApplyOne(d: Delta)
      modifies this`calls
      ensures calls == Put(old(calls), d)
    {
      if d.index < 0 {
        return;
      }
      if d.index >= |calls| {
        calls := calls + seq(d.index + 1 - |calls|, _ => EMPTY);
      }
      var call := calls[d.index];
      if d.id != "" {
        call := call.(id := d.id);
      }
      if d.name != "" {
        call := call.(name := d.name);
      }
      Nothing(call.arguments);
      if d.arguments != "" {
        call := call.(arguments := call.arguments + d.arguments);
      }
      calls := calls[d.index := call];
    }
  }
}
