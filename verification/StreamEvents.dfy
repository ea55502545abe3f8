/** What the write callback makes of one event, in characters. */
module StreamEvents {
  import opened Text
  import opened SseParser
  import opened StreamRetry

  /** The end mark is not handed on, nor is an event without data; any other is, once. */
  lemma EventInCharacters(events: seq<Event>, e: Event)
    ensures Chunks(events + [e]) == Chunks(events) + if e.data == "" || e.data == "[DONE]" then [] else [e.data]
    ensures HasDone(events + [e]) <==> HasDone(events) || e.data == "[DONE]"
    ensures Chunks([]) == [] && !HasDone([])
  {
    assert (events + [e])[..|events|] == events;
    HasDoneAppend(events, [e]);
    assert HasDone([e]) <==> [e][0].data == "[DONE]";
  }

  /** One write gives at most 32 events; the others wait for the next. */
  lemma EventsPerWrite(p: Perform)
    ensures Seen(p) == ParseParts(FRESH, p.writes, 32).0
  {
  }
}
