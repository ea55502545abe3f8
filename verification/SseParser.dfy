/** The core's incremental parser of server-sent events. */
module SseParser {
  import opened Text
  import opened Stepper

  datatype Event = Event(name: string, id: string, data: string)

  /** `buf` are the bytes not yet read as lines, the rest is the event being collected. */
  datatype Parser = Parser(buf: string, name: string, id: string, data: string)

  const FRESH := Parser("", "", "", "")

  // ---------------------------------------------------------------------------------------------
  // Lines
  // ---------------------------------------------------------------------------------------------

  /** Field name and value of a line: one space after the colon is dropped. */
  function FieldOf(line: string): (string, string)
  {
    var i := FirstIndex(line, ':');
    if i == |line| then (line, "")
    else
      var v := line[i + 1..];
      (line[..i], if StartsWith(v, " ") then v[1..] else v)
  }

  predicate Collected(p: Parser) { p.name != "" || p.id != "" || p.data != "" }

  function DropLast(s: string): string
  {
    if s != "" && s[|s| - 1] == '\n' then s[..|s| - 1] else s
  }

  /** A blank line ends an event, if anything was collected. */
  predicate Emits(p: Parser, raw: string) { TrimCr(raw) == "" && Collected(p) }

  function EventOf(p: Parser): Event { Event(p.name, p.id, DropLast(p.data)) }

  /** What a line does to the event being collected. */
  function Collect(p: Parser, raw: string): (q: Parser)
    ensures q.buf == p.buf
  {
    var line := TrimCr(raw);
    if line == "" then p.(name := "", id := "", data := "")
    else if line[0] == ':' then p
    else
      var (field, value) := FieldOf(line);
      if field == "event" then p.(name := value)
      else if field == "id" then p.(id := value)
      else if field == "data" then p.(data := p.data + value + "\n")
      else p
  }

  predicate HasLine(p: Parser) { FirstIndex(p.buf, '\n') < |p.buf| }

  function NextLine(p: Parser): string { p.buf[..FirstIndex(p.buf, '\n')] }

  /** The parser after its next line. */
  function Advance(p: Parser): (q: Parser)
    requires HasLine(p)
    ensures |q.buf| < |p.buf|
  {
    Collect(p.(buf := p.buf[FirstIndex(p.buf, '\n') + 1..]), NextLine(p))
  }

  function Emitted(p: Parser): seq<Event>
  {
    if Emits(p, NextLine(p)) then [EventOf(p)] else []
  }

  // ---------------------------------------------------------------------------------------------
  // Feeding
  // ---------------------------------------------------------------------------------------------

  /** One step reads one line. */
  function LineMachine(): Machine<Parser, Event>
  {
    Machine(p => if HasLine(p) then Some((Emitted(p), Advance(p))) else None, (p: Parser) => |p.buf|)
  }

  function Fed(p: Parser, bytes: string): Parser { p.(buf := p.buf + bytes) }

  lemma LineStands(p: Parser, more: string)
    requires HasLine(p)
    ensures HasLine(Fed(p, more)) && Emitted(Fed(p, more)) == Emitted(p) && Advance(Fed(p, more)) == Fed(Advance(p), more)
  {
    FirstIndexStands(p.buf, more, '\n');
    var i := FirstIndex(p.buf, '\n');
    assert (p.buf + more)[..i] == p.buf[..i];
    assert (p.buf + more)[i + 1..] == p.buf[i + 1..] + more;
    CollectStands(p.(buf := p.buf[i + 1..]), p.buf[..i], more);
  }

  lemma CollectStands(p: Parser, raw: string, more: string)
    ensures Collect(Fed(p, more), raw) == Fed(Collect(p, raw), more)
  {
  }

  lemma LineMachineIsValid()
    ensures Valid(LineMachine())
  {
  }

  lemma FedTwice(p: Parser, x: string, y: string)
    ensures Fed(Fed(p, x), y) == Fed(p, x + y) && Fed(p, "") == p
  {
    assert (p.buf + x) + y == p.buf + (x + y);
    assert p.buf + "" == p.buf;
  }

  lemma BytesFeedLines()
    ensures Valid(LineMachine()) && Feeds(LineMachine(), Fed)
  {
    LineMachineIsValid();
    var m := LineMachine();
    forall p, x | m.next(p).Some?
      ensures m.next(Fed(p, x)) == Some((m.next(p).value.0, Fed(m.next(p).value.1, x)))
    {
      LineStands(p, x);
    }
    forall p, x, y
      ensures Fed(Fed(p, x), y) == Fed(p, x + y) && Fed(p, "") == p
    {
      FedTwice(p, x, y);
    }
  }

  /** All events of the complete lines in the buffer, and the parser after them. */
  function Parse(p: Parser): (seq<Event>, Parser)
  {
    LineMachineIsValid();
    Run(LineMachine(), p)
  }

  /** The same with room for `cap` events; when there is none left, the blank line that would give the
      next one stays in the buffer. */
  function ParseCapped(p: Parser, cap: nat): (seq<Event>, Parser)
  {
    LineMachineIsValid();
    RunCapped(LineMachine(), p, cap)
  }

  function NonEmpty(parts: seq<string>): seq<string>
  {
    if parts == [] then []
    else NonEmpty(parts[..|parts| - 1]) + if parts[|parts| - 1] == "" then [] else [parts[|parts| - 1]]
  }

  lemma {:induction false} NonEmptyKeepsBytes(parts: seq<string>)
    ensures Concat(NonEmpty(parts)) == Concat(parts)
  {
    if parts != [] {
      var n := |parts| - 1;
      NonEmptyKeepsBytes(parts[..n]);
      assert parts == parts[..n] + [parts[n]];
      ConcatAppend(parts[..n], [parts[n]]);
      ConcatOne(parts[n]);
      if parts[n] != "" {
        ConcatAppend(NonEmpty(parts[..n]), [parts[n]]);
      } else {
        assert Concat(parts[..n]) + "" == Concat(parts[..n]) && NonEmpty(parts[..n]) + [] == NonEmpty(parts[..n]);
      }
    }
  }

  /** The events of a series of feeds with room for `cap` events each; an empty feed does nothing. */
  function ParseParts(p: Parser, parts: seq<string>, cap: nat): (seq<Event>, Parser)
  {
    LineMachineIsValid();
    FeedAll(LineMachine(), Fed, p, NonEmpty(parts), cap)
  }

  /** However the bytes are split into feeds and however little room each has, if it has any: the events
      given so far, followed by those still to come from the buffer, are the events of all the bytes.  So
      an event that has no room is not dropped; the next feed gives it. */
  lemma PartsGiveAllInOrder(p: Parser, parts: seq<string>, cap: nat)
    requires cap > 0
    ensures
      var (events, q) := ParseParts(p, parts, cap);
      Parse(Fed(p, Concat(parts))) == (events + Parse(q).0, Parse(q).1)
  {
    BytesFeedLines();
    NonEmptyKeepsBytes(parts);
    FeedsGiveAllInOrder(LineMachine(), Fed, p, NonEmpty(parts), cap);
  }

  /** When the last feed was not cut short, what was given does not depend on the splitting. */
  lemma SplittingDoesNotMatter(p: Parser, parts: seq<string>, cap: nat)
    requires cap > 0 && !HasLine(ParseParts(p, parts, cap).1)
    ensures ParseParts(p, parts, cap) == Parse(Fed(p, Concat(parts)))
  {
    PartsGiveAllInOrder(p, parts, cap);
    Nothing(ParseParts(p, parts, cap).0);
  }

  lemma OneMorePart(p: Parser, parts: seq<string>, last: string, cap: nat)
    ensures last == "" ==> ParseParts(p, parts + [last], cap) == ParseParts(p, parts, cap)
    ensures last != "" ==>
      var (events, q) := ParseParts(p, parts, cap);
      var (more, end) := ParseCapped(Fed(q, last), cap);
      ParseParts(p, parts + [last], cap) == (events + more, end)
  {
    LineMachineIsValid();
    assert (parts + [last])[..|parts|] == parts;
    if last == "" {
      Nothing(NonEmpty(parts));
    } else {
      FeedAllSnoc(LineMachine(), Fed, p, NonEmpty(parts), last, cap);
    }
  }

  class Reader {
    var state: Parser

    constructor ()
      ensures state == FRESH
    {
      state := FRESH;
    }

    method Reset()
      modifies this
      ensures state == FRESH
    {
      state := FRESH;
    }

    /** `cap` is the room for events, 0 when the caller gives none: then they are thrown away.  `limited`
        reports that an event had no room. */
    method Feed(bytes: string, cap: nat) returns (events: seq<Event>, limited: bool)
      modifies this
      ensures bytes == "" ==> events == [] && state == old(state) && !limited
      ensures bytes != "" && cap > 0 ==>
        (events, state) == ParseCapped(Fed(old(state), bytes), cap) && (limited <==> HasLine(state))
      ensures bytes != "" && cap == 0 ==>
        events == [] && state == Parse(Fed(old(state), bytes)).1 && !limited
    {
      if bytes == "" {
        return [], false;
      }
      state := Fed(state, bytes);
      if cap == 0 {
        ThrowAway();
        return [], false;
      }
      events, limited := ReadLines(cap);
    }

    method ReadLines(cap: nat) returns (events: seq<Event>, limited: bool)
      requires cap > 0
      modifies this
      ensures (events, state) == ParseCapped(old(state), cap) && (limited <==> HasLine(state))
    {
      events := [];
      LineMachineIsValid();
      ghost var m, start := LineMachine(), state;
      ProgressStart(m, start, cap);
      while HasLine(state)
        invariant Progress(m, start, cap, events, state)
        decreases |state.buf|
      {
        if Emits(state, NextLine(state)) && |events| >= cap {
          ProgressEnd(m, start, cap, events, state);
          return events, true;
        }
        ProgressStep(m, start, cap, events, state);
        if Emits(state, NextLine(state)) {
          events := events + [EventOf(state)];
        } else {
          Nothing(events);
        }
        state := Advance(state);
      }
      ProgressEnd(m, start, cap, events, state);
      limited := false;
    }

    /** The same loop without room: what an event collected is cleared. */
    method ThrowAway()
      modifies this
      ensures state == Parse(old(state)).1
    {
      LineMachineIsValid();
      while HasLine(state)
        invariant Parse(state).1 == Parse(old(state)).1
        decreases |state.buf|
      {
        state := Advance(state);
      }
    }
  }
}
