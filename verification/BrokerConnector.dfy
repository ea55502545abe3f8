/** The connection to the broker: the main loop, the heartbeat and one thread per command send frames
    over one socket under one lock, in any interleaving. */
module BrokerConnector {
  import opened Text
  import opened WebSocketFrames

  // ---------------------------------------------------------------------------------------------
  // Commands and replies
  // ---------------------------------------------------------------------------------------------

  datatype Command = Command(requestId: string, path: string)

  /** How handling a command can end; `Raised` is an exception outside the handler's own try block. */
  datatype Outcome = Handled(body: string) | UnknownPath | Failed(error: string) | Raised

  datatype Reply = Reply(requestId: string, status: nat, body: string)

  /** The one reply of `handle_command`, or None when it raises. */
  function ReplyTo(cmd: Command, outcome: Outcome): Option<Reply>
  {
    match outcome
    case Handled(body) => Some(Reply(cmd.requestId, 200, body))
    case UnknownPath => Some(Reply(cmd.requestId, 404, cmd.path))
    case Failed(error) => Some(Reply(cmd.requestId, 500, error))
    case Raised => None
  }

  /** What threads send.  Hello and snapshots are notices; the text of notices and heartbeats varies. */
  datatype Message =
    | Notice(text: Bytes)
    | Heartbeat(text: Bytes)
    | Pong(text: Bytes)
    | Close
    | Result(cmd: nat, reply: Reply)

  type Json = Reply -> Bytes

  function FrameOf(json: Json, m: Message, mask: Bytes): Sent
  {
    match m
    case Notice(t) => Sent(TEXT, mask, t)
    case Heartbeat(t) => Sent(TEXT, mask, t)
    case Pong(t) => Sent(PONG, mask, t)
    case Close => Sent(CLOSE, mask, [])
    case Result(_, reply) => Sent(TEXT, mask, json(reply))
  }

  // ---------------------------------------------------------------------------------------------
  // The threads
  // ---------------------------------------------------------------------------------------------

  datatype Main =
    | Hello | FirstSnapshot                   // the two notices before the loop
    | Loop
    | Answering(text: Bytes)                  // a ping was read
    | SnapshotDue
    | Joined(cmd: nat)                        // --once: it handles the command itself
    | Stopping                                // left the loop
    | Closing                                 // the stop flag is set, the close frame is next
    | CloseSent
    | Done                                    // the socket is closed

  datatype Heart = NotStarted | Waiting | Wants | Gone

  datatype Worker =
    | Handling
    | Replied(reply: Reply)                   // before it looks at the stop flag
    | Sends(reply: Reply)                     // past that check
    | Delivered
    | Counted
    | Ended                                   // without a result

  datatype Who = MainThread | HeartThread | WorkerThread(id: nat)

  /** The thread that holds the lock has sent `done` of the bytes of its frame. */
  datatype Holder = Holder(who: Who, msg: Message, frame: Sent, bytes: Bytes, done: nat)

  datatype Entry = Entry(msg: Message, frame: Sent)

  /** `log` are the frames sent completely; `torn` what was left of a frame when the socket was closed. */
  datatype State = State(
    once: bool,
    main: Main,
    heart: Heart,
    received: seq<Command>,
    workers: seq<Worker>,
    holder: Option<Holder>,
    stop: bool,
    open: bool,
    counted: nat,
    wire: Bytes,
    torn: Bytes,
    log: seq<Entry>
  )

  datatype Action =
    | Acquire(who: Who, text: Bytes, mask: Bytes)
    | SendBytes(n: nat)
    | Release
    | Abort
    | Receive(command: Command)
    | ReadPing(text: Bytes)
    | SnapshotTimer
    | Leave
    | Rejoin
    | SetStop
    | CloseSocket
    | HeartWakes
    | HeartStops
    | Finish(cmd: nat, outcome: Outcome)
    | CheckStop(cmd: nat)
    | CountOne(cmd: nat)

  /** What a thread is about to send, if anything. */
  function NextMessage(st: State, who: Who, text: Bytes): Option<Message>
  {
    match who
    case MainThread =>
      (match st.main
       case Hello => Some(Notice(text))
       case FirstSnapshot => Some(Notice(text))
       case SnapshotDue => Some(Notice(text))
       case Answering(t) => Some(Pong(t))
       case Closing => Some(Close)
       case _ => None)
    case HeartThread => if st.heart.Wants? then Some(Heartbeat(text)) else None
    case WorkerThread(k) =>
      if k < |st.workers| && st.workers[k].Sends? then Some(Result(k, st.workers[k].reply)) else None
  }

  /** The main thread ends its loop, or an exception takes it out of what it does between two sends. */
  predicate MayLeave(st: State)
  {
    && (st.main.Hello? || st.main.FirstSnapshot? || st.main.Loop? || st.main.SnapshotDue?)
    && !(st.holder.Some? && st.holder.value.who.MainThread?)
  }

  predicate Enabled(json: Json, st: State, a: Action)
  {
    match a
    case Acquire(who, text, mask) =>
      st.holder.None? && NextMessage(st, who, text).Some?
      && FrameOf(json, NextMessage(st, who, text).value, mask).Valid()
    case SendBytes(n) =>
      st.holder.Some? && st.open && n > 0 && st.holder.value.done + n <= |st.holder.value.bytes|
    case Release =>
      st.holder.Some? && st.holder.value.done == |st.holder.value.bytes|
    case Abort =>
      st.holder.Some? && !st.open && st.holder.value.done < |st.holder.value.bytes|
    case Receive(_) => st.main.Loop?
    case ReadPing(_) => st.main.Loop?
    case SnapshotTimer => st.main.Loop?
    case Leave => MayLeave(st)
    case Rejoin =>
      st.main.Joined? && st.main.cmd < |st.workers|
      && (st.workers[st.main.cmd].Counted? || st.workers[st.main.cmd].Ended?)
    case SetStop => st.main.Stopping?
    case CloseSocket => st.main.CloseSent?
    case HeartWakes => st.heart.Waiting? && !st.stop
    case HeartStops => st.heart.Waiting? && st.stop
    case Finish(k, _) => k < |st.workers| && k < |st.received| && st.workers[k].Handling?
    case CheckStop(k) => k < |st.workers| && st.workers[k].Replied?
    case CountOne(k) => k < |st.workers| && st.workers[k].Delivered?
  }

  /** The sender goes on when `sendall` has returned and the lock is free again. */
  function Proceeds(st: State, who: Who): (next: State)
    ensures next.(main := st.main, heart := st.heart, workers := st.workers) == st
  {
    match who
    case MainThread =>
      (match st.main
       case Hello => st.(main := FirstSnapshot)
       case FirstSnapshot => st.(main := Loop, heart := Waiting)
       case Closing => st.(main := CloseSent)
       case _ => st.(main := Loop))
    case HeartThread => st.(heart := Waiting)
    case WorkerThread(k) => if k < |st.workers| then st.(workers := st.workers[k := Delivered]) else st
  }

  /** Its `sendall` raised. */
  function GivesUp(st: State, who: Who): (next: State)
    ensures next.(main := st.main, heart := st.heart, workers := st.workers) == st
  {
    match who
    case MainThread => st
    case HeartThread => st.(heart := Gone)
    case WorkerThread(k) => if k < |st.workers| then st.(workers := st.workers[k := Ended]) else st
  }

  function Next(json: Json, st: State, a: Action): State
    requires Enabled(json, st, a)
  {
    match a
    case Acquire(who, text, mask) =>
      var m := NextMessage(st, who, text).value;
      var frame := FrameOf(json, m, mask);
      st.(holder := Some(Holder(who, m, frame, frame.Wire(), 0)))
    case SendBytes(n) =>
      var h := st.holder.value;
      st.(wire := st.wire + h.bytes[h.done..h.done + n], holder := Some(h.(done := h.done + n)))
    case Release =>
      var h := st.holder.value;
      Proceeds(st.(log := st.log + [Entry(h.msg, h.frame)], holder := None), h.who)
    case Abort =>
      var h := st.holder.value;
      GivesUp(st.(torn := if h.done > 0 then h.bytes[..h.done] else st.torn, holder := None), h.who)
    case Receive(cmd) =>
      st.(received := st.received + [cmd], workers := st.workers + [Handling],
          main := if st.once then Joined(|st.workers|) else Loop)
    case ReadPing(text) => st.(main := Answering(text))
    case SnapshotTimer => st.(main := SnapshotDue)
    case Leave => st.(main := Stopping)
    case Rejoin => st.(main := Stopping)
    case SetStop => st.(main := Closing, stop := true)
    case CloseSocket => st.(main := Done, open := false)
    case HeartWakes => st.(heart := Wants)
    case HeartStops => st.(heart := Gone)
    case Finish(k, outcome) =>
      var reply := ReplyTo(st.received[k], outcome);
      st.(workers := st.workers[k := if reply.Some? then Replied(reply.value) else Ended])
    case CheckStop(k) => st.(workers := st.workers[k := if st.stop then Ended else Sends(st.workers[k].reply)])
    case CountOne(k) => st.(workers := st.workers[k := Counted], counted := st.counted + 1)
  }

  predicate Possible(json: Json, st: State, run: seq<Action>)
    decreases |run|
  {
    run == [] || (Enabled(json, st, run[0]) && Possible(json, Next(json, st, run[0]), run[1..]))
  }

  function After(json: Json, st: State, run: seq<Action>): State
    requires Possible(json, st, run)
    decreases |run|
  {
    if run == [] then st else After(json, Next(json, st, run[0]), run[1..])
  }

  function Connected(once: bool): State
  {
    State(once, Hello, NotStarted, [], [], None, false, true, 0, [], [], [])
  }

  // ---------------------------------------------------------------------------------------------
  // The wire
  // ---------------------------------------------------------------------------------------------

  function FramesOf(log: seq<Entry>): (fs: seq<Sent>)
    ensures |fs| == |log|
    ensures forall i :: 0 <= i < |log| ==> fs[i] == log[i].frame
  {
    seq(|log|, i requires 0 <= i < |log| => log[i].frame)
  }

  ghost predicate SomeFrameBegins(part: Bytes)
  {
    exists f: Sent, n: nat :: Begins(f, n, part)
  }

  predicate Begins(f: Sent, n: nat, part: Bytes)
  {
    f.Valid() && n < |f.Wire()| && part == f.Wire()[..n]
  }

  /** The bytes after the last frame of the log. */
  function Rest(holder: Option<Holder>, torn: Bytes): Bytes
    requires holder.Some? ==> holder.value.done <= |holder.value.bytes|
  {
    if holder.Some? && holder.value.done > 0 then holder.value.bytes[..holder.value.done] else torn
  }

  predicate HolderOk(h: Holder)
  {
    h.frame.Valid() && h.bytes == h.frame.Wire() && h.done <= |h.bytes|
  }

  ghost predicate WireOk(frames: seq<Sent>, wire: Bytes, holder: Option<Holder>, torn: Bytes, open: bool)
  {
    && AllValid(frames)
    && (holder.Some? ==> HolderOk(holder.value))
    && wire == WireOf(frames) + Rest(holder, torn)
    && (torn != [] ==> !open && (holder.Some? ==> holder.value.done == 0) && SomeFrameBegins(torn))
  }

  ghost predicate WireInv(st: State)
  {
    WireOk(FramesOf(st.log), st.wire, st.holder, st.torn, st.open)
  }

  lemma SendBytesKeepsWire(frames: seq<Sent>, wire: Bytes, h: Holder, n: nat)
    requires WireOk(frames, wire, Some(h), [], true) && h.done + n <= |h.bytes| && n > 0
    ensures WireOk(frames, wire + h.bytes[h.done..h.done + n], Some(h.(done := h.done + n)), [], true)
  {
    var w := h.bytes;
    assert w[..h.done + n] == w[..h.done] + w[h.done..h.done + n];
    if h.done == 0 {
      assert w[..0] == [];
    }
    assert Rest(Some(h), []) == w[..h.done];
    Regroup(WireOf(frames), w[..h.done], w[h.done..h.done + n]);
  }

  lemma ReleaseKeepsWire(frames: seq<Sent>, wire: Bytes, h: Holder, torn: Bytes, open: bool)
    requires WireOk(frames, wire, Some(h), torn, open) && h.done == |h.bytes|
    ensures WireOk(frames + [h.frame], wire, None, torn, open)
  {
    assert h.done > 0 && torn == [];
    assert h.bytes[..h.done] == h.bytes;
    WireOfSnoc(frames, h.frame);
    Nothing(wire);
  }

  lemma WireOfSnoc(frames: seq<Sent>, last: Sent)
    requires AllValid(frames) && last.Valid()
    ensures AllValid(frames + [last]) && WireOf(frames + [last]) == WireOf(frames) + last.Wire()
  {
    WireOfConcat(frames, [last]);
    assert [last][1..] == [];
    Nothing(last.Wire());
  }

  lemma AbortKeepsWire(frames: seq<Sent>, wire: Bytes, h: Holder, torn: Bytes)
    requires WireOk(frames, wire, Some(h), torn, false) && h.done < |h.bytes|
    ensures WireOk(frames, wire, None, if h.done > 0 then h.bytes[..h.done] else torn, false)
  {
    if h.done > 0 {
      assert Begins(h.frame, h.done, h.bytes[..h.done]);
    }
  }

  predicate MovesBytes(a: Action) { a.SendBytes? || a.Release? || a.Abort? || a.Acquire? }

  lemma NextKeepsWireInv(json: Json, st: State, a: Action)
    requires WireInv(st) && Enabled(json, st, a)
    ensures WireInv(Next(json, st, a))
  {
    match a
    case SendBytes(n) => NextSendBytesKeepsWire(json, st, n);
    case Release => NextReleaseKeepsWire(json, st);
    case Abort => NextAbortKeepsWire(json, st);
    case Acquire(who, text, mask) => AcquireKeepsWire(json, st, who, text, mask);
    case CloseSocket => ClosingKeepsWire(json, st);
    case _ => OthersKeepWireInv(json, st, a);
  }

  lemma NextSendBytesKeepsWire(json: Json, st: State, n: nat)
    requires WireInv(st) && Enabled(json, st, SendBytes(n))
    ensures WireInv(Next(json, st, SendBytes(n)))
  {
    SendBytesKeepsWire(FramesOf(st.log), st.wire, st.holder.value, n);
  }

  lemma NextAbortKeepsWire(json: Json, st: State)
    requires WireInv(st) && Enabled(json, st, Abort)
    ensures WireInv(Next(json, st, Abort))
  {
    AbortKeepsWire(FramesOf(st.log), st.wire, st.holder.value, st.torn);
  }

  lemma ClosingKeepsWire(json: Json, st: State)
    requires WireInv(st) && Enabled(json, st, CloseSocket)
    ensures WireInv(Next(json, st, CloseSocket))
  {
  }

  lemma OthersKeepWireInv(json: Json, st: State, a: Action)
    requires WireInv(st) && Enabled(json, st, a) && !MovesBytes(a) && !a.CloseSocket?
    ensures WireInv(Next(json, st, a))
  {
    OthersKeepWire(json, st, a);
  }

  lemma AcquireKeepsWire(json: Json, st: State, who: Who, text: Bytes, mask: Bytes)
    requires WireInv(st) && Enabled(json, st, Acquire(who, text, mask))
    ensures WireInv(Next(json, st, Acquire(who, text, mask)))
  {
    var next := Next(json, st, Acquire(who, text, mask));
    assert Rest(next.holder, st.torn) == st.torn == Rest(st.holder, st.torn);
  }

  lemma OthersKeepWire(json: Json, st: State, a: Action)
    requires Enabled(json, st, a) && !MovesBytes(a) && !a.CloseSocket?
    ensures
      var next := Next(json, st, a);
      next.log == st.log && next.wire == st.wire && next.holder == st.holder && next.torn == st.torn && next.open == st.open
  {
  }

  lemma NextReleaseKeepsWire(json: Json, st: State)
    requires WireInv(st) && Enabled(json, st, Release)
    ensures WireInv(Next(json, st, Release))
  {
    var h := st.holder.value;
    ReleaseKeepsWire(FramesOf(st.log), st.wire, h, st.torn, st.open);
    assert FramesOf(st.log + [Entry(h.msg, h.frame)]) == FramesOf(st.log) + [h.frame];
  }

  lemma {:induction false} RunKeepsWireInv(json: Json, st: State, run: seq<Action>)
    requires WireInv(st) && Possible(json, st, run)
    ensures WireInv(After(json, st, run))
    decreases |run|
  {
    if run != [] {
      NextKeepsWireInv(json, st, run[0]);
      RunKeepsWireInv(json, Next(json, st, run[0]), run[1..]);
    }
  }

  /** The frames whose last byte is on the wire, the one not yet reported to its sender included. */
  function Completed(st: State): seq<Entry>
  {
    if st.holder.Some? && st.holder.value.done == |st.holder.value.bytes|
    then st.log + [Entry(st.holder.value.msg, st.holder.value.frame)]
    else st.log
  }

  /** Whatever the interleaving, and also when the socket is closed in the middle of a send: a peer that
      parses the wire gets whole frames, in the order in which they were sent, and nothing else. */
  lemma PeerReadsWholeFrames(json: Json, once: bool, run: seq<Action>)
    requires Possible(json, Connected(once), run)
    ensures
      var st := After(json, Connected(once), run);
      WireInv(st) && ParseAll(st.wire).0 == Meanings(FramesOf(Completed(st)))
  {
    RunKeepsWireInv(json, Connected(once), run);
    WireParses(After(json, Connected(once), run));
  }

  lemma WireParses(st: State)
    requires WireInv(st)
    ensures ParseAll(st.wire).0 == Meanings(FramesOf(Completed(st)))
  {
    var frames := FramesOf(st.log);
    if Rest(st.holder, st.torn) == [] {
      WholeWireParses(frames);
      Nothing(WireOf(frames));
    } else if st.holder.Some? && st.holder.value.done > 0 {
      var h := st.holder.value;
      if h.done < |h.bytes| {
        ParseAllOfWire(frames, h.frame, h.done);
      } else {
        WireOfSnoc(frames, h.frame);
        WholeWireParses(frames + [h.frame]);
        assert h.bytes[..h.done] == h.bytes;
        assert FramesOf(Completed(st)) == frames + [h.frame];
      }
    } else {
      var f: Sent, n: nat :| Begins(f, n, st.torn);
      ParseAllOfWire(frames, f, n);
    }
  }

  lemma WholeWireParses(frames: seq<Sent>)
    requires AllValid(frames)
    ensures ParseAll(WireOf(frames)).0 == Meanings(frames)
  {
    var any := Sent(CLOSE, [0, 0, 0, 0], []);
    ParseAllOfWire(frames, any, 0);
    assert any.Wire()[..0] == [];
    Nothing(WireOf(frames));
  }

  // ---------------------------------------------------------------------------------------------
  // Results
  // ---------------------------------------------------------------------------------------------

  predicate IsDone(w: Worker) { w.Delivered? || w.Counted? }

  function NumDone(ws: seq<Worker>): (n: nat)
    ensures n <= |ws|
  {
    if ws == [] then 0 else NumDone(ws[..|ws| - 1]) + if IsDone(ws[|ws| - 1]) then 1 else 0
  }

  function NumCounted(ws: seq<Worker>): (n: nat)
    ensures n <= NumDone(ws)
  {
    if ws == [] then 0 else NumCounted(ws[..|ws| - 1]) + if ws[|ws| - 1].Counted? then 1 else 0
  }

  function NumResults(log: seq<Entry>): (n: nat)
  {
    if log == [] then 0 else NumResults(log[..|log| - 1]) + if log[|log| - 1].msg.Result? then 1 else 0
  }

  lemma {:induction false} NumUpdate(ws: seq<Worker>, k: nat, w: Worker)
    requires k < |ws|
    ensures NumDone(ws[k := w]) - NumDone(ws) == (if IsDone(w) then 1 else 0) - if IsDone(ws[k]) then 1 else 0
    ensures NumCounted(ws[k := w]) - NumCounted(ws) == (if w.Counted? then 1 else 0) - if ws[k].Counted? then 1 else 0
  {
    var n := |ws| - 1;
    if k == n {
      assert ws[k := w][..n] == ws[..n];
    } else {
      assert ws[k := w][..n] == ws[..n][k := w];
      NumUpdate(ws[..n], k, w);
    }
  }

  /** A result is one of a received command, and repeats its request id. */
  predicate ResultOk(received: seq<Command>, m: Message)
  {
    m.Result? ==> m.cmd < |received| && m.reply.requestId == received[m.cmd].requestId
  }

  predicate WorkerOk(w: Worker, cmd: Command)
  {
    (w.Replied? || w.Sends?) ==> w.reply.requestId == cmd.requestId
  }

  /** The holder of the lock is a thread that wants to send, and sends its own message. */
  predicate HolderTrue(st: State)
  {
    st.holder.Some? ==>
      var h := st.holder.value;
      match h.who
      case MainThread =>
        (match st.main
         case Hello => h.msg.Notice?
         case FirstSnapshot => h.msg.Notice?
         case SnapshotDue => h.msg.Notice?
         case Answering(_) => h.msg.Pong?
         case Closing => h.msg.Close?
         case _ => false)
      case HeartThread => st.heart.Wants? && h.msg.Heartbeat?
      case WorkerThread(k) => k < |st.workers| && st.workers[k].Sends? && h.msg == Result(k, st.workers[k].reply)
  }

  predicate LogOk(log: seq<Entry>, received: seq<Command>, workers: seq<Worker>)
    requires |received| == |workers|
  {
    && (forall i :: 0 <= i < |log| ==> ResultOk(received, log[i].msg))
    && (forall i :: 0 <= i < |log| && log[i].msg.Result? ==> IsDone(workers[log[i].msg.cmd]))
    && NoTwoResults(log)
  }

  predicate WorkersOk(received: seq<Command>, workers: seq<Worker>)
    requires |received| == |workers|
  {
    forall k :: 0 <= k < |workers| ==> WorkerOk(workers[k], received[k])
  }

  predicate NoTwoResults(log: seq<Entry>)
  {
    forall i, j :: 0 <= i < j < |log| && log[i].msg.Result? && log[j].msg.Result? ==>
      log[i].msg.cmd != log[j].msg.cmd
  }

  predicate CountsOk(log: seq<Entry>, workers: seq<Worker>, counted: nat)
  {
    NumResults(log) == NumDone(workers) && counted == NumCounted(workers)
  }

  predicate ResultInv(st: State)
  {
    && |st.received| == |st.workers|
    && HolderTrue(st)
    && WorkersOk(st.received, st.workers)
    && LogOk(st.log, st.received, st.workers)
    && CountsOk(st.log, st.workers, st.counted)
  }

  /** A worker may change its state unless that takes back a result. */
  lemma WorkerMoves(st: State, k: nat, w: Worker, counted: nat)
    requires ResultInv(st) && k < |st.workers| && WorkerOk(w, st.received[k])
    requires IsDone(w) == IsDone(st.workers[k])
    requires counted == st.counted + (if w.Counted? then 1 else 0) - if st.workers[k].Counted? then 1 else 0
    ensures WorkersOk(st.received, st.workers[k := w]) && LogOk(st.log, st.received, st.workers[k := w])
    ensures CountsOk(st.log, st.workers[k := w], counted)
  {
    NumUpdate(st.workers, k, w);
  }

  lemma NoticeAdded(st: State, e: Entry)
    requires ResultInv(st) && !e.msg.Result?
    ensures LogOk(st.log + [e], st.received, st.workers) && CountsOk(st.log + [e], st.workers, st.counted)
  {
    assert (st.log + [e])[..|st.log|] == st.log;
  }

  lemma ResultAdded(st: State, k: nat, e: Entry)
    requires ResultInv(st) && k < |st.workers| && st.workers[k].Sends? && e.msg == Result(k, st.workers[k].reply)
    ensures WorkersOk(st.received, st.workers[k := Delivered])
    ensures LogOk(st.log + [e], st.received, st.workers[k := Delivered])
    ensures CountsOk(st.log + [e], st.workers[k := Delivered], st.counted)
  {
    assert WorkerOk(st.workers[k], st.received[k]);
    assert (st.log + [e])[..|st.log|] == st.log;
    NumUpdate(st.workers, k, Delivered);
  }

  lemma CommandAdded(st: State, cmd: Command)
    requires ResultInv(st)
    ensures WorkersOk(st.received + [cmd], st.workers + [Handling])
    ensures LogOk(st.log, st.received + [cmd], st.workers + [Handling])
    ensures CountsOk(st.log, st.workers + [Handling], st.counted)
  {
    assert (st.workers + [Handling])[..|st.workers|] == st.workers;
  }

  lemma NextKeepsResultInv(json: Json, st: State, a: Action)
    requires ResultInv(st) && Enabled(json, st, a)
    ensures ResultInv(Next(json, st, a))
  {
    match a
    case Release => ReleaseKeepsResultInv(json, st);
    case Abort => AbortKeepsResultInv(json, st);
    case Receive(cmd) => ReceiveKeepsResultInv(json, st, cmd);
    case Finish(k, outcome) => FinishKeepsResultInv(json, st, k, outcome);
    case CheckStop(k) => CheckStopKeepsResultInv(json, st, k);
    case CountOne(k) => CountKeepsResultInv(json, st, k);
    case _ => QuietKeepsResultInv(json, st, a);
  }

  lemma ReceiveKeepsResultInv(json: Json, st: State, cmd: Command)
    requires ResultInv(st) && Enabled(json, st, Receive(cmd))
    ensures ResultInv(Next(json, st, Receive(cmd)))
  {
    CommandAdded(st, cmd);
  }

  lemma CountKeepsResultInv(json: Json, st: State, k: nat)
    requires ResultInv(st) && Enabled(json, st, CountOne(k))
    ensures ResultInv(Next(json, st, CountOne(k)))
  {
    WorkerMoves(st, k, Counted, st.counted + 1);
  }

  lemma QuietKeepsResultInv(json: Json, st: State, a: Action)
    requires ResultInv(st) && Enabled(json, st, a) && !MovesWorkers(a)
    ensures ResultInv(Next(json, st, a))
  {
    QuietStep(json, st, a);
  }

  lemma AbortKeepsResultInv(json: Json, st: State)
    requires ResultInv(st) && Enabled(json, st, Abort)
    ensures ResultInv(Next(json, st, Abort))
  {
    var who := st.holder.value.who;
    if who.WorkerThread? { WorkerMoves(st, who.id, Ended, st.counted); }
  }

  lemma FinishKeepsResultInv(json: Json, st: State, k: nat, outcome: Outcome)
    requires ResultInv(st) && Enabled(json, st, Finish(k, outcome))
    ensures ResultInv(Next(json, st, Finish(k, outcome)))
  {
    WorkerMoves(st, k, Next(json, st, Finish(k, outcome)).workers[k], st.counted);
  }

  lemma CheckStopKeepsResultInv(json: Json, st: State, k: nat)
    requires ResultInv(st) && Enabled(json, st, CheckStop(k))
    ensures ResultInv(Next(json, st, CheckStop(k)))
  {
    assert WorkerOk(st.workers[k], st.received[k]);
    WorkerMoves(st, k, Next(json, st, CheckStop(k)).workers[k], st.counted);
  }

  predicate MovesWorkers(a: Action)
  {
    a.Release? || a.Abort? || a.Receive? || a.Finish? || a.CheckStop? || a.CountOne?
  }

  lemma QuietStep(json: Json, st: State, a: Action)
    requires Enabled(json, st, a) && !MovesWorkers(a) && HolderTrue(st)
    ensures
      var next := Next(json, st, a);
      && next.log == st.log && next.received == st.received && next.workers == st.workers
      && next.counted == st.counted && HolderTrue(next)
  {
  }

  lemma ReleaseKeepsResultInv(json: Json, st: State)
    requires ResultInv(st) && Enabled(json, st, Release)
    ensures ResultInv(Next(json, st, Release))
  {
    match st.holder.value.who
    case MainThread => MainReleases(json, st);
    case HeartThread => HeartReleases(json, st);
    case WorkerThread(k) => WorkerReleases(json, st, k);
  }

  lemma MainReleases(json: Json, st: State)
    requires ResultInv(st) && Enabled(json, st, Release) && st.holder.value.who.MainThread?
    ensures ResultInv(Next(json, st, Release))
  {
    NoResultReleased(json, st);
    NoticeAdded(st, Entry(st.holder.value.msg, st.holder.value.frame));
  }

  lemma HeartReleases(json: Json, st: State)
    requires ResultInv(st) && Enabled(json, st, Release) && st.holder.value.who.HeartThread?
    ensures ResultInv(Next(json, st, Release))
  {
    NoResultReleased(json, st);
    NoticeAdded(st, Entry(st.holder.value.msg, st.holder.value.frame));
  }

  lemma NoResultReleased(json: Json, st: State)
    requires HolderTrue(st) && Enabled(json, st, Release) && !st.holder.value.who.WorkerThread?
    ensures !st.holder.value.msg.Result?
    ensures
      var next := Next(json, st, Release);
      && next.log == st.log + [Entry(st.holder.value.msg, st.holder.value.frame)] && next.holder.None?
      && next.received == st.received && next.workers == st.workers && next.counted == st.counted
  {
  }

  lemma WorkerReleases(json: Json, st: State, k: nat)
    requires ResultInv(st) && Enabled(json, st, Release) && st.holder.value.who == WorkerThread(k)
    ensures ResultInv(Next(json, st, Release))
  {
    ResultAdded(st, k, Entry(st.holder.value.msg, st.holder.value.frame));
  }

  lemma {:induction false} RunKeepsResults(json: Json, st: State, run: seq<Action>)
    requires ResultInv(st) && Possible(json, st, run)
    ensures ResultInv(After(json, st, run))
    decreases |run|
  {
    if run != [] {
      NextKeepsResultInv(json, st, run[0]);
      RunKeepsResults(json, Next(json, st, run[0]), run[1..]);
    }
  }

  /** In every reachable state: at most one result per received command is on the wire, it repeats that
      command's request id, and the reported number of commands is at most the number of results sent,
      which is at most the number of commands received. */
  lemma OneResultPerCommand(json: Json, once: bool, run: seq<Action>)
    requires Possible(json, Connected(once), run)
    ensures
      var st := After(json, Connected(once), run);
      && WireInv(st) && NoTwoResults(Completed(st))
      && (forall i :: 0 <= i < |Completed(st)| ==> ResultOk(st.received, Completed(st)[i].msg))
      && st.counted <= NumResults(st.log) <= NumResults(Completed(st)) <= |st.received|
  {
    RunKeepsWireInv(json, Connected(once), run);
    RunKeepsResults(json, Connected(once), run);
    var st := After(json, Connected(once), run);
    CompletedResults(st);
  }

  lemma CompletedResults(st: State)
    requires ResultInv(st)
    ensures NoTwoResults(Completed(st))
    ensures forall i :: 0 <= i < |Completed(st)| ==> ResultOk(st.received, Completed(st)[i].msg)
    ensures NumResults(st.log) <= NumResults(Completed(st)) <= |st.received|
  {
    if st.holder.Some? && st.holder.value.done == |st.holder.value.bytes| {
      var h := st.holder.value;
      assert Completed(st)[..|st.log|] == st.log;
      if h.who.WorkerThread? {
        ResultAdded(st, h.who.id, Entry(h.msg, h.frame));
      } else {
        NoticeAdded(st, Entry(h.msg, h.frame));
      }
    }
  }

  // ---------------------------------------------------------------------------------------------
  // Shutting down
  // ---------------------------------------------------------------------------------------------

  /** What was sent after the close frame. */
  function AfterClose(log: seq<Entry>): seq<Entry>
  {
    if log == [] then [] else if log[0].msg.Close? then log[1..] else AfterClose(log[1..])
  }

  predicate HasClose(log: seq<Entry>)
  {
    exists i :: 0 <= i < |log| && log[i].msg.Close?
  }

  function Heartbeats(log: seq<Entry>): nat
  {
    if log == [] then 0 else Heartbeats(log[..|log| - 1]) + if log[|log| - 1].msg.Heartbeat? then 1 else 0
  }

  lemma {:induction false} AfterCloseSnoc(log: seq<Entry>, e: Entry)
    ensures AfterClose(log + [e]) == if HasClose(log) then AfterClose(log) + [e] else []
    ensures HasClose(log + [e]) <==> HasClose(log) || e.msg.Close?
  {
    assert (log + [e])[|log|] == e;
    if log == [] {
      assert [e][1..] == [];
    } else {
      assert (log + [e])[0] == log[0] && (log + [e])[1..] == log[1..] + [e];
      AfterCloseSnoc(log[1..], e);
      if log[0].msg.Close? {
        assert HasClose(log);
      } else if HasClose(log) {
        var i :| 0 <= i < |log| && log[i].msg.Close?;
        assert log[1..][i - 1].msg.Close?;
      }
    }
    forall i | 0 <= i < |log| && log[i].msg.Close?
      ensures (log + [e])[i].msg.Close?
    {
    }
  }

  /** Results and at most `n` heartbeats. */
  predicate Stragglers(log: seq<Entry>, n: int)
  {
    && (forall i :: 0 <= i < |log| ==> log[i].msg.Result? || log[i].msg.Heartbeat?)
    && Heartbeats(log) <= n
  }

  predicate CloseInv(st: State)
  {
    && HolderTrue(st)
    && (st.stop <==> st.main.Closing? || st.main.CloseSent? || st.main.Done?)
    && (st.open <==> !st.main.Done?)
    && (HasClose(st.log) <==> st.main.CloseSent? || st.main.Done?)
    && Stragglers(AfterClose(st.log), if st.heart.Wants? && HasClose(st.log) then 0 else 1)
  }

  lemma NextKeepsCloseInv(json: Json, st: State, a: Action)
    requires ResultInv(st) && CloseInv(st) && Enabled(json, st, a)
    ensures CloseInv(Next(json, st, a))
  {
    NextKeepsResultInv(json, st, a);
    if a.Release? {
      ReleaseKeepsCloseInv(json, st);
    }
  }

  lemma ReleaseKeepsCloseInv(json: Json, st: State)
    requires ResultInv(st) && CloseInv(st) && Enabled(json, st, Release)
    ensures CloseInv(Next(json, st, Release))
  {
    ReleaseKeepsResultInv(json, st);
    OneMoreInLog(st);
    match st.holder.value.who
    case MainThread => MainReleasesClose(json, st);
    case HeartThread =>
    case WorkerThread(k) =>
  }

  lemma MainReleasesClose(json: Json, st: State)
    requires ResultInv(st) && CloseInv(st) && Enabled(json, st, Release) && st.holder.value.who.MainThread?
    ensures
      var next := Next(json, st, Release);
      && !HasClose(st.log) && (HasClose(next.log) <==> next.main.CloseSent?) && AfterClose(next.log) == []
      && (next.stop <==> next.main.Closing? || next.main.CloseSent? || next.main.Done?)
  {
    var h := st.holder.value;
    AfterCloseSnoc(st.log, Entry(h.msg, h.frame));
  }

  /** The frame of the one who holds the lock, added to the log. */
  lemma OneMoreInLog(st: State)
    requires CloseInv(st) && st.holder.Some?
    ensures
      var e := Entry(st.holder.value.msg, st.holder.value.frame);
      var beats := st.heart.Wants? && HasClose(st.log) && !e.msg.Heartbeat?;
      && (HasClose(st.log + [e]) <==> HasClose(st.log) || e.msg.Close?)
      && Stragglers(AfterClose(st.log + [e]), if beats then 0 else 1)
  {
    ReleasedLog(st.log, Entry(st.holder.value.msg, st.holder.value.frame),
      if st.heart.Wants? && HasClose(st.log) then 0 else 1);
  }

  /** What one more frame does to the end of the log. */
  lemma ReleasedLog(log: seq<Entry>, e: Entry, n: int)
    requires Stragglers(AfterClose(log), n) && 0 <= n
    ensures HasClose(log + [e]) <==> HasClose(log) || e.msg.Close?
    ensures !HasClose(log) ==> AfterClose(log + [e]) == [] && Stragglers(AfterClose(log + [e]), n)
    ensures HasClose(log) && (e.msg.Result? || e.msg.Heartbeat?) ==>
      Stragglers(AfterClose(log + [e]), if e.msg.Heartbeat? then n + 1 else n)
  {
    AfterCloseSnoc(log, e);
    if HasClose(log) && (e.msg.Result? || e.msg.Heartbeat?) {
      OneMoreStraggler(AfterClose(log), e, n);
    }
  }

  lemma OneMoreStraggler(late: seq<Entry>, e: Entry, n: int)
    requires Stragglers(late, n) && (e.msg.Result? || e.msg.Heartbeat?)
    ensures Stragglers(late + [e], if e.msg.Heartbeat? then n + 1 else n)
  {
    assert (late + [e])[..|late|] == late;
  }

  lemma {:induction false} RunKeepsCloseInv(json: Json, st: State, run: seq<Action>)
    requires ResultInv(st) && CloseInv(st) && Possible(json, st, run)
    ensures CloseInv(After(json, st, run))
    decreases |run|
  {
    if run != [] {
      NextKeepsResultInv(json, st, run[0]);
      NextKeepsCloseInv(json, st, run[0]);
      RunKeepsCloseInv(json, Next(json, st, run[0]), run[1..]);
    }
  }

  /** After the close frame nothing follows but results of commands and at most one heartbeat; in
      particular there is one close frame only, and no snapshot or pong comes after it. */
  lemma OnlyStragglersAfterClose(json: Json, once: bool, run: seq<Action>)
    requires Possible(json, Connected(once), run)
    ensures Stragglers(AfterClose(Completed(After(json, Connected(once), run))), 1)
  {
    var st := After(json, Connected(once), run);
    RunKeepsCloseInv(json, Connected(once), run);
    if st.holder.Some? {
      OneMoreInLog(st);
    }
  }

  /** The worker has not passed its check of the stop flag. */
  predicate BeforeCheck(st: State, k: nat)
  {
    k < |st.workers| && (st.workers[k].Handling? || st.workers[k].Replied? || st.workers[k].Ended?)
  }

  lemma {:induction false} StoppedWorkersStayQuiet(json: Json, st: State, run: seq<Action>, k: nat)
    requires ResultInv(st) && st.stop && BeforeCheck(st, k) && Possible(json, st, run)
    ensures ResultInv(After(json, st, run)) && BeforeCheck(After(json, st, run), k)
    decreases |run|
  {
    if run != [] {
      NextKeepsResultInv(json, st, run[0]);
      StopStays(json, st, run[0], k);
      StoppedWorkersStayQuiet(json, Next(json, st, run[0]), run[1..], k);
    }
  }

  lemma StopStays(json: Json, st: State, a: Action, k: nat)
    requires ResultInv(st) && st.stop && BeforeCheck(st, k) && Enabled(json, st, a)
    ensures Next(json, st, a).stop && BeforeCheck(Next(json, st, a), k)
  {
  }

  /** A command that is still being handled when the stop flag is set never sends a result. */
  lemma NoResultAfterStop(json: Json, once: bool, run: seq<Action>, more: seq<Action>, k: nat)
    requires Possible(json, Connected(once), run)
    requires After(json, Connected(once), run).stop && BeforeCheck(After(json, Connected(once), run), k)
    requires Possible(json, After(json, Connected(once), run), more)
    ensures
      var log := After(json, After(json, Connected(once), run), more).log;
      forall i :: 0 <= i < |log| && log[i].msg.Result? ==> log[i].msg.cmd != k
  {
    RunKeepsResults(json, Connected(once), run);
    StoppedWorkersStayQuiet(json, After(json, Connected(once), run), more, k);
  }

  /** `a` leads from `st` to `next`; what is possible from there is possible after `a`. */
  lemma StepTo(json: Json, st: State, a: Action, next: State, rest: seq<Action>) returns (run: seq<Action>)
    requires Enabled(json, st, a) && Next(json, st, a) == next && Possible(json, next, rest)
    ensures Possible(json, st, run) && After(json, st, run) == After(json, next, rest)
  {
    run := [a] + rest;
    assert run[1..] == rest;
  }

  const MASK: Bytes := [1, 2, 3, 4]

  /** The thread `who` takes the lock, sends its whole message and goes on. */
  function SendsNow(json: Json, st: State, who: Who): State
    requires NextMessage(st, who, []).Some? && FrameOf(json, NextMessage(st, who, []).value, MASK).Valid()
  {
    var m := NextMessage(st, who, []).value;
    var frame := FrameOf(json, m, MASK);
    Proceeds(st.(wire := st.wire + frame.Wire(), log := st.log + [Entry(m, frame)], holder := None), who)
  }

  lemma SendNow(json: Json, st: State, who: Who, rest: seq<Action>) returns (run: seq<Action>)
    requires st.holder.None? && st.open
    requires NextMessage(st, who, []).Some? && FrameOf(json, NextMessage(st, who, []).value, MASK).Valid()
    requires Possible(json, SendsNow(json, st, who), rest)
    ensures Possible(json, st, run) && After(json, st, run) == After(json, SendsNow(json, st, who), rest)
  {
    var m := NextMessage(st, who, []).value;
    var frame := FrameOf(json, m, MASK);
    var w := frame.Wire();
    var locked := st.(holder := Some(Holder(who, m, frame, w, 0)));
    var sent := st.(holder := Some(Holder(who, m, frame, w, |w|)), wire := st.wire + w);
    assert w[0..0 + |w|] == w;
    run := StepTo(json, sent, Release, SendsNow(json, st, who), rest);
    run := StepTo(json, locked, SendBytes(|w|), sent, run);
    run := StepTo(json, st, Acquire(who, [], MASK), locked, run);
  }

  /** From the loop to the end, with a command thread that sends just after the close frame. */
  lemma LateResult(json: Json, st: State, k: nat) returns (run: seq<Action>)
    requires st.main.Loop? && st.holder.None? && st.open && k < |st.workers| && st.workers[k].Sends?
    requires |json(st.workers[k].reply)| < LONG
    ensures Possible(json, st, run)
    ensures
      var m := Result(k, st.workers[k].reply);
      After(json, st, run).log ==
        st.log + [Entry(Close, FrameOf(json, Close, MASK))] + [Entry(m, FrameOf(json, m, MASK))]
  {
    var s6 := st.(main := Stopping);
    var s7 := s6.(main := Closing, stop := true);
    var s8 := SendsNow(json, s7, MainThread);
    run := SendNow(json, s8, WorkerThread(k), []);
    run := SendNow(json, s7, MainThread, run);
    run := StepTo(json, s6, SetStop, s7, run);
    run := StepTo(json, st, Leave, s6, run);
  }

  /** From the start to a command thread that is past its check. */
  lemma EarlyReply(json: Json, st: State, cmd: Command, reply: Reply, rest: seq<Action>) returns (run: seq<Action>)
    requires st.main.Loop? && !st.once && !st.stop && st.received == [] && st.workers == []
    requires reply == Reply(cmd.requestId, 404, cmd.path)
    requires Possible(json, st.(received := [cmd], workers := [Sends(reply)]), rest)
    ensures Possible(json, st, run)
    ensures After(json, st, run) == After(json, st.(received := [cmd], workers := [Sends(reply)]), rest)
  {
    var s3 := st.(received := [cmd], workers := [Handling]);
    var s4 := s3.(workers := [Replied(reply)]);
    run := StepTo(json, s4, CheckStop(0), s4.(workers := [Sends(reply)]), rest);
    run := StepTo(json, s3, Finish(0, UnknownPath), s4, run);
    run := StepTo(json, st, Receive(cmd), s3, run);
  }

  /** Section 5.5.1 of RFC 6455 forbids data frames after a close frame, but one can follow: a command
      thread that is past its check of the stop flag sends its result after the main loop's close frame. */
  lemma ResultCanFollowClose(json: Json, cmd: Command) returns (run: seq<Action>)
    requires |json(Reply(cmd.requestId, 404, cmd.path))| < LONG
    ensures Possible(json, Connected(false), run)
    ensures
      var late := AfterClose(After(json, Connected(false), run).log);
      |late| == 1 && late[0].msg == Result(0, Reply(cmd.requestId, 404, cmd.path))
  {
    var reply := Reply(cmd.requestId, 404, cmd.path);
    var s1 := SendsNow(json, Connected(false), MainThread);
    var s2 := SendsNow(json, s1, MainThread);
    run := LateResult(json, s2.(received := [cmd], workers := [Sends(reply)]), 0);
    run := EarlyReply(json, s2, cmd, reply, run);
    run := SendNow(json, s1, MainThread, run);
    run := SendNow(json, Connected(false), MainThread, run);
    CloseThenOne(s2.log, FrameOf(json, Close, MASK), Entry(Result(0, reply), FrameOf(json, Result(0, reply), MASK)));
  }

  lemma CloseThenOne(log: seq<Entry>, close: Sent, e: Entry)
    requires !HasClose(log)
    ensures AfterClose(log + [Entry(Close, close)] + [e]) == [e]
  {
    AfterCloseSnoc(log, Entry(Close, close));
    AfterCloseSnoc(log + [Entry(Close, close)], e);
  }

  // ---------------------------------------------------------------------------------------------
  // When nothing more follows
  // ---------------------------------------------------------------------------------------------

  /** No continuation sends another whole frame. */
  ghost predicate Final(json: Json, st: State)
  {
    forall more :: Possible(json, st, more) ==> After(json, st, more).log == st.log
  }

  predicate WorkerCanSend(json: Json, w: Worker)
  {
    w.Sends? && |json(w.reply)| < LONG
  }

  /** Someone is in the middle of a send that can still finish, or past the checks that would stop it. */
  predicate CanStillSend(json: Json, st: State)
  {
    if st.holder.Some? then st.open || st.holder.value.done == |st.holder.value.bytes|
    else st.open && (st.heart.Wants? || exists k :: 0 <= k < |st.workers| && WorkerCanSend(json, st.workers[k]))
  }

  /** The stop flag is set, the main thread has sent its close frame, and nobody can send. */
  predicate Quiet(json: Json, st: State)
  {
    && st.stop && (st.main.CloseSent? || st.main.Done?)
    && (st.holder.Some? ==> st.holder.value.done <= |st.holder.value.bytes|)
    && !CanStillSend(json, st)
  }

  lemma QuietStays(json: Json, st: State, a: Action)
    requires Quiet(json, st) && Enabled(json, st, a)
    ensures Quiet(json, Next(json, st, a)) && Next(json, st, a).log == st.log
  {
    var next := Next(json, st, a);
    if a.Acquire? {
      AcquiredIsShort(json, st, a.who, a.text, a.mask);
    }
    if next.holder.None? && next.open {
      forall k | 0 <= k < |next.workers|
        ensures !WorkerCanSend(json, next.workers[k])
      {
        assert k < |st.workers| && !WorkerCanSend(json, st.workers[k]);
      }
    }
  }

  /** A frame takes bytes, and only the heartbeat and command threads may still want to send one. */
  lemma AcquiredIsShort(json: Json, st: State, who: Who, text: Bytes, mask: Bytes)
    requires Quiet(json, st) && Enabled(json, st, Acquire(who, text, mask))
    ensures !st.open && |Next(json, st, Acquire(who, text, mask)).holder.value.bytes| > 0
  {
    if who.WorkerThread? {
      assert WorkerCanSend(json, st.workers[who.id]);
    }
  }

  lemma {:induction false} QuietIsFinal(json: Json, st: State, more: seq<Action>)
    requires Quiet(json, st) && Possible(json, st, more)
    ensures After(json, st, more).log == st.log
    decreases |more|
  {
    if more != [] {
      QuietStays(json, st, more[0]);
      QuietIsFinal(json, Next(json, st, more[0]), more[1..]);
    }
  }

  /** Whoever can still send does. */
  lemma OneMoreFrame(json: Json, st: State) returns (more: seq<Action>, e: Entry)
    requires CanStillSend(json, st) && (st.holder.Some? ==> st.holder.value.done <= |st.holder.value.bytes|)
    ensures Possible(json, st, more) && After(json, st, more).log == st.log + [e]
  {
    if st.holder.Some? {
      var h := st.holder.value;
      e := Entry(h.msg, h.frame);
      if h.done == |h.bytes| {
        more := StepTo(json, st, Release, Next(json, st, Release), []);
      } else {
        var sent := Next(json, st, SendBytes(|h.bytes| - h.done));
        more := StepTo(json, sent, Release, Next(json, sent, Release), []);
        more := StepTo(json, st, SendBytes(|h.bytes| - h.done), sent, more);
      }
    } else {
      var who := HeartThread;
      if !st.heart.Wants? {
        var k :| 0 <= k < |st.workers| && WorkerCanSend(json, st.workers[k]);
        who := WorkerThread(k);
      }
      more := SendNow(json, st, who, []);
      var m := NextMessage(st, who, []).value;
      e := Entry(m, FrameOf(json, m, MASK));
    }
  }

  /** In every reachable state in which the close frame is the last one sent: nothing ever follows it
      exactly when nobody is in the middle of a send that can finish, the heartbeat is not about to send,
      and no command thread with a reply that fits a frame is past its check of the stop flag; or the
      socket is closed already. */
  lemma NothingFollowsCloseIff(json: Json, once: bool, run: seq<Action>)
    requires Possible(json, Connected(once), run)
    requires HasClose(After(json, Connected(once), run).log) && AfterClose(After(json, Connected(once), run).log) == []
    ensures
      var st := After(json, Connected(once), run);
      && (Final(json, st) <==> !CanStillSend(json, st))
      && (Final(json, st) <==>
            forall more :: Possible(json, st, more) ==> AfterClose(After(json, st, more).log) == [])
  {
    var st := After(json, Connected(once), run);
    RunKeepsCloseInv(json, Connected(once), run);
    RunKeepsWireInv(json, Connected(once), run);
    if CanStillSend(json, st) {
      var more, e := OneMoreFrame(json, st);
      AfterCloseSnoc(st.log, e);
      assert After(json, st, more).log != st.log;
      assert AfterClose(After(json, st, more).log) == [e];
    } else {
      forall more | Possible(json, st, more)
        ensures After(json, st, more).log == st.log
      {
        QuietIsFinal(json, st, more);
      }
    }
  }
}
