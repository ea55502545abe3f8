/** What the frames on the wire say: of each command's result, how the command ended; and the kind of each
    frame, in numbers. */
module BrokerOutcomes {
  import opened Text
  import opened WebSocketFrames
  import opened BrokerConnector

  /** The reply tells how the command ended: 200 and its result, 404 and the path, or 500 and the error. */
  predicate Tells(reply: Reply, cmd: Command, outcome: Outcome)
  {
    && reply.requestId == cmd.requestId
    && match outcome
       case Handled(body) => reply.status == 200 && reply.body == body
       case UnknownPath => reply.status == 404 && reply.body == cmd.path
       case Failed(error) => reply.status == 500 && reply.body == error
       case Raised => false
  }

  /** Command k finished in that way. */
  predicate Ended(past: seq<Action>, k: nat, outcome: Outcome)
  {
    Finish(k, outcome) in past
  }

  ghost predicate ToldBy(past: seq<Action>, received: seq<Command>, k: nat, reply: Reply)
  {
    k < |received| && exists outcome :: Ended(past, k, outcome) && Tells(reply, received[k], outcome)
  }

  ghost predicate MessageTold(past: seq<Action>, received: seq<Command>, m: Message)
  {
    m.Result? ==> ToldBy(past, received, m.cmd, m.reply)
  }

  ghost predicate WorkerTold(past: seq<Action>, received: seq<Command>, workers: seq<Worker>, k: nat)
    requires k < |workers|
  {
    workers[k].Replied? || workers[k].Sends? ==> ToldBy(past, received, k, workers[k].reply)
  }

  /** Each command finishes at most once, and is no longer being handled then. */
  predicate FinishedOnce(past: seq<Action>, workers: seq<Worker>)
  {
    && (forall i :: 0 <= i < |past| && past[i].Finish? ==> past[i].cmd < |workers| && !workers[past[i].cmd].Handling?)
    && (forall i, j :: 0 <= i < j < |past| && past[i].Finish? && past[j].Finish? ==> past[i].cmd != past[j].cmd)
  }

  ghost predicate OutcomeInv(past: seq<Action>, st: State)
  {
    && |st.received| == |st.workers|
    && FinishedOnce(past, st.workers)
    && (forall k :: 0 <= k < |st.workers| ==> WorkerTold(past, st.received, st.workers, k))
    && (st.holder.Some? ==> MessageTold(past, st.received, st.holder.value.msg))
    && forall i :: 0 <= i < |st.log| ==> MessageTold(past, st.received, st.log[i].msg)
  }

  lemma ToldStays(past: seq<Action>, received: seq<Command>, k: nat, reply: Reply, a: Action, more: seq<Command>)
    requires ToldBy(past, received, k, reply)
    ensures ToldBy(past + [a], received + more, k, reply)
  {
    var outcome :| Ended(past, k, outcome) && Tells(reply, received[k], outcome);
    assert Ended(past + [a], k, outcome);
  }

  lemma MessageStays(past: seq<Action>, received: seq<Command>, m: Message, a: Action, more: seq<Command>)
    requires MessageTold(past, received, m)
    ensures MessageTold(past + [a], received + more, m)
  {
    if m.Result? {
      ToldStays(past, received, m.cmd, m.reply, a, more);
    }
  }

  /** What is told stays told, after any action and with more commands received. */
  lemma AllStays(past: seq<Action>, st: State, a: Action, more: seq<Command>)
    requires OutcomeInv(past, st)
    ensures forall k :: 0 <= k < |st.workers| ==> WorkerTold(past + [a], st.received + more, st.workers, k)
    ensures st.holder.Some? ==> MessageTold(past + [a], st.received + more, st.holder.value.msg)
    ensures forall i :: 0 <= i < |st.log| ==> MessageTold(past + [a], st.received + more, st.log[i].msg)
  {
    forall k | 0 <= k < |st.workers|
      ensures WorkerTold(past + [a], st.received + more, st.workers, k)
    {
      assert WorkerTold(past, st.received, st.workers, k);
      if st.workers[k].Replied? || st.workers[k].Sends? {
        ToldStays(past, st.received, k, st.workers[k].reply, a, more);
      }
    }
    if st.holder.Some? {
      MessageStays(past, st.received, st.holder.value.msg, a, more);
    }
    forall i | 0 <= i < |st.log|
      ensures MessageTold(past + [a], st.received + more, st.log[i].msg)
    {
      MessageStays(past, st.received, st.log[i].msg, a, more);
    }
  }

  lemma NextKeepsOutcomes(json: Json, past: seq<Action>, st: State, a: Action)
    requires OutcomeInv(past, st) && Enabled(json, st, a)
    ensures OutcomeInv(past + [a], Next(json, st, a))
  {
    match a
    case Receive(cmd) => ReceiveKeepsOutcomes(json, past, st, cmd);
    case Finish(k, outcome) => FinishKeepsOutcomes(json, past, st, k, outcome);
    case Acquire(who, text, mask) => AcquireKeepsOutcomes(json, past, st, who, text, mask);
    case _ => OthersKeepOutcomes(json, past, st, a);
  }

  lemma OnceStays(past: seq<Action>, workers: seq<Worker>, a: Action, next: seq<Worker>)
    requires FinishedOnce(past, workers) && !a.Finish? && |next| >= |workers|
    requires forall k :: 0 <= k < |workers| && next[k].Handling? ==> workers[k].Handling?
    ensures FinishedOnce(past + [a], next)
  {
  }

  lemma ReceiveKeepsOutcomes(json: Json, past: seq<Action>, st: State, cmd: Command)
    requires OutcomeInv(past, st) && Enabled(json, st, Receive(cmd))
    ensures OutcomeInv(past + [Receive(cmd)], Next(json, st, Receive(cmd)))
  {
    var a, next := Receive(cmd), Next(json, st, Receive(cmd));
    AllStays(past, st, a, [cmd]);
    OnceStays(past, st.workers, a, next.workers);
    forall k | 0 <= k < |next.workers|
      ensures WorkerTold(past + [a], next.received, next.workers, k)
    {
      assert k < |st.workers| ==> WorkerTold(past + [a], next.received, st.workers, k);
    }
  }

  lemma FinishKeepsOutcomes(json: Json, past: seq<Action>, st: State, k: nat, outcome: Outcome)
    requires OutcomeInv(past, st) && Enabled(json, st, Finish(k, outcome))
    ensures OutcomeInv(past + [Finish(k, outcome)], Next(json, st, Finish(k, outcome)))
  {
    var a, next := Finish(k, outcome), Next(json, st, Finish(k, outcome));
    AllStays(past, st, a, []);
    Nothing(st.received);
    OneMoreFinished(past, st.workers, k, outcome, next.workers[k]);
    assert Ended(past + [a], k, outcome);
    forall j | 0 <= j < |next.workers|
      ensures WorkerTold(past + [a], next.received, next.workers, j)
    {
      assert j != k ==> WorkerTold(past + [a], next.received, st.workers, j);
    }
  }

  lemma OneMoreFinished(past: seq<Action>, workers: seq<Worker>, k: nat, outcome: Outcome, w: Worker)
    requires FinishedOnce(past, workers) && k < |workers| && workers[k].Handling? && !w.Handling?
    ensures FinishedOnce(past + [Finish(k, outcome)], workers[k := w])
  {
  }

  lemma AcquireKeepsOutcomes(json: Json, past: seq<Action>, st: State, who: Who, text: Bytes, mask: Bytes)
    requires OutcomeInv(past, st) && Enabled(json, st, Acquire(who, text, mask))
    ensures OutcomeInv(past + [Acquire(who, text, mask)], Next(json, st, Acquire(who, text, mask)))
  {
    var a := Acquire(who, text, mask);
    AllStays(past, st, a, []);
    Nothing(st.received);
    OnceStays(past, st.workers, a, st.workers);
    if who.WorkerThread? && who.id < |st.workers| {
      assert WorkerTold(past + [a], st.received, st.workers, who.id);
    }
  }

  lemma OthersKeepOutcomes(json: Json, past: seq<Action>, st: State, a: Action)
    requires OutcomeInv(past, st) && Enabled(json, st, a) && !a.Receive? && !a.Finish? && !a.Acquire?
    ensures OutcomeInv(past + [a], Next(json, st, a))
  {
    var next := Next(json, st, a);
    AllStays(past, st, a, []);
    Nothing(st.received);
    OthersMove(json, st, a);
    OnceStays(past, st.workers, a, next.workers);
    forall k | 0 <= k < |next.workers|
      ensures WorkerTold(past + [a], next.received, next.workers, k)
    {
      assert WorkerTold(past + [a], next.received, st.workers, k);
    }
    forall i | 0 <= i < |next.log|
      ensures MessageTold(past + [a], next.received, next.log[i].msg)
    {
      assert i < |st.log| ==> next.log[i] == st.log[i];
    }
  }

  /** What the other actions do to what is told. */
  lemma OthersMove(json: Json, st: State, a: Action)
    requires Enabled(json, st, a) && !a.Receive? && !a.Finish? && !a.Acquire?
    ensures
      var next := Next(json, st, a);
      && next.received == st.received && |next.workers| == |st.workers|
      && (forall k :: 0 <= k < |st.workers| ==>
            next.workers[k] == st.workers[k] || (!next.workers[k].Handling? && !next.workers[k].Replied?
              && (next.workers[k].Sends? ==> st.workers[k].Replied? && next.workers[k].reply == st.workers[k].reply)))
      && (next.holder.Some? ==> st.holder.Some? && next.holder.value.msg == st.holder.value.msg)
      && (next.log == st.log || (st.holder.Some? && next.log == st.log + [Entry(st.holder.value.msg, st.holder.value.frame)]))
  {
  }

  lemma {:induction false} RunKeepsOutcomes(json: Json, past: seq<Action>, st: State, run: seq<Action>)
    requires OutcomeInv(past, st) && Possible(json, st, run)
    ensures OutcomeInv(past + run, After(json, st, run))
    decreases |run|
  {
    if run == [] {
      Nothing(past);
    } else {
      NextKeepsOutcomes(json, past, st, run[0]);
      RunKeepsOutcomes(json, past + [run[0]], Next(json, st, run[0]), run[1..]);
      assert past + run == past + [run[0]] + run[1..];
    }
  }

  /** In every reachable state every result sent tells how its command ended, which it did once, and not by
      an exception outside of the handler. */
  lemma ResultsTellOutcomes(json: Json, once: bool, run: seq<Action>, i: nat)
    requires Possible(json, Connected(once), run)
    requires i < |After(json, Connected(once), run).log| && After(json, Connected(once), run).log[i].msg.Result?
    ensures
      var st := After(json, Connected(once), run);
      var Result(k, reply) := st.log[i].msg;
      && k < |st.received|
      && (exists outcome :: Finish(k, outcome) in run)
      && forall outcome :: Finish(k, outcome) in run ==> Tells(reply, st.received[k], outcome)
  {
    var st := After(json, Connected(once), run);
    RunKeepsOutcomes(json, [], Connected(once), run);
    Nothing(run);
    var Result(k, reply) := st.log[i].msg;
    assert MessageTold(run, st.received, st.log[i].msg);
    var told :| Ended(run, k, told) && Tells(reply, st.received[k], told);
    forall outcome | Finish(k, outcome) in run
      ensures outcome == told
    {
      OnlyOnce(run, st.workers, k, outcome, told);
    }
  }

  lemma OnlyOnce(past: seq<Action>, workers: seq<Worker>, k: nat, a: Outcome, b: Outcome)
    requires FinishedOnce(past, workers) && Finish(k, a) in past && Finish(k, b) in past
    ensures a == b
  {
    var i :| 0 <= i < |past| && past[i] == Finish(k, a);
    var j :| 0 <= j < |past| && past[j] == Finish(k, b);
    assert !(i < j) && !(j < i);
  }

  // ---------------------------------------------------------------------------------------------
  // The kinds of frames
  // ---------------------------------------------------------------------------------------------

  /** Notices, heartbeats and results are text frames (1), pongs are 10 and the close frame is 8 and empty. */
  predicate FrameSays(json: Json, m: Message, frame: Sent)
  {
    match m
    case Notice(text) => frame.opcode == 1 && frame.payload == text
    case Heartbeat(text) => frame.opcode == 1 && frame.payload == text
    case Pong(text) => frame.opcode == 10 && frame.payload == text
    case Close => frame.opcode == 8 && frame.payload == []
    case Result(_, reply) => frame.opcode == 1 && frame.payload == json(reply)
  }

  ghost predicate FramesSay(json: Json, st: State)
  {
    && (st.holder.Some? ==> FrameSays(json, st.holder.value.msg, st.holder.value.frame))
    && forall i :: 0 <= i < |st.log| ==> FrameSays(json, st.log[i].msg, st.log[i].frame)
  }

  lemma {:induction false} FramesOfRun(json: Json, st: State, run: seq<Action>)
    requires FramesSay(json, st) && Possible(json, st, run)
    ensures FramesSay(json, After(json, st, run))
    decreases |run|
  {
    if run != [] {
      FramesOfStep(json, st, run[0]);
      FramesOfRun(json, Next(json, st, run[0]), run[1..]);
    }
  }

  lemma FramesOfStep(json: Json, st: State, a: Action)
    requires FramesSay(json, st) && Enabled(json, st, a)
    ensures FramesSay(json, Next(json, st, a))
  {
    if !a.Receive? && !a.Finish? && !a.Acquire? {
      OthersMove(json, st, a);
      if Next(json, st, a).holder.Some? {
        FrameStays(json, st, a);
      }
    }
  }

  /** In every reachable state the frames sent are of these kinds. */
  lemma FramesInNumbers(json: Json, once: bool, run: seq<Action>)
    requires Possible(json, Connected(once), run)
    ensures
      var st := After(json, Connected(once), run);
      forall i :: 0 <= i < |st.log| ==> FrameSays(json, st.log[i].msg, st.log[i].frame)
  {
    FramesOfRun(json, Connected(once), run);
  }

  lemma FrameStays(json: Json, st: State, a: Action)
    requires Enabled(json, st, a) && !a.Acquire? && Next(json, st, a).holder.Some?
    ensures st.holder.Some? && Next(json, st, a).holder.value.frame == st.holder.value.frame
  {
  }
}
