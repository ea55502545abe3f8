/** Machines that read their input step by step and give at most one event in each step. */
module Stepper {
  import opened Text

  datatype Machine<!S, E> = Machine(next: S -> Option<(seq<E>, S)>, size: S -> nat)

  ghost predicate Valid<S(!new), E>(m: Machine<S, E>)
  {
    forall s :: m.next(s).Some? ==> m.size(m.next(s).value.1) < m.size(s) && |m.next(s).value.0| <= 1
  }

  /** All steps that are possible: the events, and where that ends. */
  function Run<S(!new), E>(m: Machine<S, E>, s: S): (seq<E>, S)
    requires Valid(m)
    decreases m.size(s)
  {
    match m.next(s)
    case None => ([], s)
    case Some((event, t)) =>
      var (events, end) := Run(m, t);
      (event + events, end)
  }

  /** There is no room for what the next step gives. */
  predicate Full<S, E>(m: Machine<S, E>, s: S, cap: nat)
  {
    m.next(s).Some? && |m.next(s).value.0| > cap
  }

  /** The same with room for `cap` events: it stops before a step whose event has no room. */
  function RunCapped<S(!new), E>(m: Machine<S, E>, s: S, cap: nat): (seq<E>, S)
    requires Valid(m)
    decreases m.size(s)
  {
    match m.next(s)
    case None => ([], s)
    case Some((event, t)) =>
      if |event| > cap then ([], s)
      else
        var (events, end) := RunCapped(m, t, cap - |event|);
        (event + events, end)
  }

  /** Running capped got from `start` to `s` and gave `events`. */
  ghost predicate Progress<S(!new), E>(m: Machine<S, E>, start: S, cap: nat, events: seq<E>, s: S)
    requires Valid(m)
  {
    |events| <= cap &&
    RunCapped(m, start, cap) == (events + RunCapped(m, s, cap - |events|).0, RunCapped(m, s, cap - |events|).1)
  }

  lemma ProgressStart<S(!new), E>(m: Machine<S, E>, s: S, cap: nat)
    requires Valid(m)
    ensures Progress(m, s, cap, [], s)
  {
    Nothing(RunCapped(m, s, cap).0);
  }

  lemma ProgressStep<S(!new), E>(m: Machine<S, E>, start: S, cap: nat, events: seq<E>, s: S)
    requires Valid(m) && Progress(m, start, cap, events, s) && m.next(s).Some? && !Full(m, s, cap - |events|)
    ensures Progress(m, start, cap, events + m.next(s).value.0, m.next(s).value.1)
  {
    var (event, t) := m.next(s).value;
    Regroup(events, event, RunCapped(m, t, cap - |events| - |event|).0);
  }

  lemma ProgressEnd<S(!new), E>(m: Machine<S, E>, start: S, cap: nat, events: seq<E>, s: S)
    requires Valid(m) && Progress(m, start, cap, events, s)
    requires m.next(s).None? || Full(m, s, cap - |events|)
    ensures RunCapped(m, start, cap) == (events, s)
  {
    Nothing(events);
  }

  /** What had no room comes later: nothing is lost and nothing doubled. */
  lemma {:induction false} CappedRunContinues<S(!new), E>(m: Machine<S, E>, s: S, cap: nat)
    requires Valid(m)
    ensures
      var (events, t) := RunCapped(m, s, cap);
      && Run(m, s) == (events + Run(m, t).0, Run(m, t).1)
      && |events| <= cap && (m.next(t).Some? ==> |events| == cap && Run(m, t).0 != [])
    decreases m.size(s)
  {
    if m.next(s).None? || Full(m, s, cap) {
      Nothing(Run(m, s).0);
    } else {
      var (event, t) := m.next(s).value;
      var (events, end) := RunCapped(m, t, cap - |event|);
      CappedRunContinues(m, t, cap - |event|);
      Regroup(event, events, Run(m, end).0);
    }
  }

  /** `more` adds input at the end: it changes no step that is possible without it. */
  ghost predicate Extends<S(!new), E>(m: Machine<S, E>, more: S -> S)
  {
    forall s :: m.next(s).Some? ==> m.next(more(s)) == Some((m.next(s).value.0, more(m.next(s).value.1)))
  }

  lemma {:induction false} RunSplits<S(!new), E>(m: Machine<S, E>, s: S, more: S -> S)
    requires Valid(m) && Extends(m, more)
    ensures
      var (events, t) := Run(m, s);
      var (later, end) := Run(m, more(t));
      Run(m, more(s)) == (events + later, end)
    decreases m.size(s)
  {
    if m.next(s).None? {
      Nothing(Run(m, more(s)).0);
    } else {
      var (event, t) := m.next(s).value;
      RunSplits(m, t, more);
      Regroup(event, Run(m, t).0, Run(m, more(Run(m, t).1)).0);
    }
  }

  // ---------------------------------------------------------------------------------------------
  // Series of feeds
  // ---------------------------------------------------------------------------------------------

  /** Feeding adds bytes at the end of the input. */
  ghost predicate Feeds<S(!new), E>(m: Machine<S, E>, feed: (S, string) -> S)
  {
    && (forall s, x :: m.next(s).Some? ==> m.next(feed(s, x)) == Some((m.next(s).value.0, feed(m.next(s).value.1, x))))
    && (forall s, x, y :: feed(feed(s, x), y) == feed(s, x + y))
    && (forall s :: feed(s, "") == s)
  }

  /** The events of a series of feeds with room for `cap` events each. */
  function FeedAll<S(!new), E>(m: Machine<S, E>, feed: (S, string) -> S, s: S, parts: seq<string>, cap: nat): (seq<E>, S)
    requires Valid(m)
    decreases |parts|
  {
    if parts == [] then ([], s)
    else
      var (first, t) := RunCapped(m, feed(s, parts[0]), cap);
      var (events, end) := FeedAll(m, feed, t, parts[1..], cap);
      (first + events, end)
  }

  lemma FeedSplits<S(!new), E>(m: Machine<S, E>, feed: (S, string) -> S, s: S, x: string)
    requires Valid(m) && Feeds(m, feed)
    ensures
      var (events, t) := Run(m, s);
      var (later, end) := Run(m, feed(t, x));
      Run(m, feed(s, x)) == (events + later, end)
  {
    RunSplits(m, s, t => feed(t, x));
  }

  /** However the bytes are split into feeds and however little room each has: the events given so far,
      followed by those still to come from the buffer, are the events of all the bytes. */
  lemma {:induction false} FeedsGiveAllInOrder<S(!new), E>(
    m: Machine<S, E>, feed: (S, string) -> S, s: S, parts: seq<string>, cap: nat)
    requires Valid(m) && Feeds(m, feed)
    ensures
      var (events, t) := FeedAll(m, feed, s, parts, cap);
      Run(m, feed(s, Concat(parts))) == (events + Run(m, t).0, Run(m, t).1)
    decreases |parts|
  {
    if parts == [] {
      Nothing(Run(m, s).0);
    } else {
      var more := Concat(parts[1..]);
      var (first, t) := RunCapped(m, feed(s, parts[0]), cap);
      CappedRunContinues(m, feed(s, parts[0]), cap);
      FeedSplits(m, feed, feed(s, parts[0]), more);
      FeedSplits(m, feed, t, more);
      FeedsGiveAllInOrder(m, feed, t, parts[1..], cap);
      var (events, end) := FeedAll(m, feed, t, parts[1..], cap);
      Regroup(first, Run(m, t).0, Run(m, feed(Run(m, t).1, more)).0);
      Regroup(first, events, Run(m, end).0);
    }
  }

  lemma {:induction false} FeedAllSnoc<S(!new), E>(
    m: Machine<S, E>, feed: (S, string) -> S, s: S, parts: seq<string>, last: string, cap: nat)
    requires Valid(m)
    ensures
      var (events, t) := FeedAll(m, feed, s, parts, cap);
      var (more, end) := RunCapped(m, feed(t, last), cap);
      FeedAll(m, feed, s, parts + [last], cap) == (events + more, end)
    decreases |parts|
  {
    if parts == [] {
      assert parts + [last] == [last] && [last][1..] == [];
      var (more, end) := RunCapped(m, feed(s, last), cap);
      Nothing(more);
    } else {
      assert (parts + [last])[1..] == parts[1..] + [last];
      var (first, t) := RunCapped(m, feed(s, parts[0]), cap);
      FeedAllSnoc(m, feed, t, parts[1..], last, cap);
      var (events, u) := FeedAll(m, feed, t, parts[1..], cap);
      Regroup(first, events, RunCapped(m, feed(u, last), cap).0);
    }
  }
}
