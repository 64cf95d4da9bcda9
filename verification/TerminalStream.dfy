/** Snapshot-then-stream: how a client that attaches to a running terminal gets the screen as it is
    and then every byte after it, exactly once.

    The PTY reader thread and the owner thread run in every interleaving. The reader holds the
    parser lock while it applies a chunk and publishes it on the tap; the owner holds the same lock
    while it drains the tap and takes the snapshot. */
module TerminalStreams {
  import opened Basics

  const TERMINAL_OUTPUT_FRAME_BYTES: nat := 64 * 1_024

  /** What happens to the parser: a byte of output or a change of size. */
  datatype ParserOp = Feed(b: byte) | SetSize(rows: nat, cols: nat)

  /** `Redraw(at)` is the formatted screen after the parser's first `at` operations. */
  datatype Frame = Hello | Redraw(at: nat) | Output(bytes: seq<byte>) | Error | Exit

  function Feeds(bytes: seq<byte>): seq<ParserOp> {
    seq(|bytes|, i requires 0 <= i < |bytes| => Feed(bytes[i]))
  }

  function ByteOf(op: ParserOp): seq<byte> {
    if op.Feed? then [op.b] else []
  }

  function BytesOf(ops: seq<ParserOp>): seq<byte> {
    if ops == [] then [] else ByteOf(ops[0]) + BytesOf(ops[1..])
  }

  function Payload(frame: Frame): seq<byte> {
    if frame.Output? then frame.bytes else []
  }

  /** The live bytes a client gets from a queue of frames. */
  function Streamed(frames: seq<Frame>): seq<byte> {
    if frames == [] then [] else Payload(frames[0]) + Streamed(frames[1..])
  }

  /** Where the owner thread is in its loop. `Painting` is between the snapshot and queueing it. */
  datatype Phase =
    | Forwarding(batch: seq<byte>)
    | Waiting
    | Greeting
    | Painting(at: nat, exited: bool)
    | Ending
    | Stopped

  /** `ops` is everything the parser went through and `sink` everything ever queued for the socket
      now attached. `publishing` is a chunk the reader has applied but not yet put on the tap; the
      reader holds the parser lock exactly then. */
  datatype System = System(ops: seq<ParserOp>, publishing: seq<byte>, tap: seq<seq<byte>>, tapOpen: bool,
                           phase: Phase, sink: Option<seq<Frame>>)

  /** `accepted` says whether the frame the step queues is taken; a refusal releases the socket. */
  datatype Event =
    | Process(chunk: seq<byte>)
    | Publish
    | ReaderEnds
    | Receive(accepted: bool)
    | Drained(accepted: bool)
    | Attach(accepted: bool)
    | Snapshot
    | Paint(accepted: bool)
    | Detach
    | ReportError(accepted: bool)
    | Resize(rows: nat, cols: nat)
    | Idle
    | Kill
    | SendExit(accepted: bool)

  function Queued(sink: Option<seq<Frame>>, frame: Frame, accepted: bool): Option<seq<Frame>> {
    if sink.Some? && accepted then Some(sink.value + [frame]) else None
  }

  predicate LockFree(s: System) { s.publishing == [] }

  predicate Enabled(s: System, e: Event) {
    match e
    case Process(chunk) => chunk != [] && LockFree(s) && s.tapOpen
    case Publish => !LockFree(s)
    case ReaderEnds => LockFree(s) && s.tapOpen
    case Receive(_) => s.phase.Forwarding? && s.tap != []
    case Drained(_) => s.phase.Forwarding? && s.tap == []
    case Attach(_) => s.phase.Waiting?
    case Snapshot => s.phase.Greeting? && LockFree(s)
    case Paint(_) => s.phase.Painting?
    case Detach => s.phase.Waiting?
    case ReportError(_) => s.phase.Waiting?
    case Resize(_, _) => s.phase.Waiting? && LockFree(s)
    case Idle => s.phase.Waiting?
    case Kill => s.phase.Waiting?
    case SendExit(_) => s.phase.Ending?
  }

  function Flushed(sink: Option<seq<Frame>>, batch: seq<byte>, accepted: bool): Option<seq<Frame>> {
    if batch == [] then sink else Queued(sink, Output(batch), accepted)
  }

  function Next(s: System, e: Event): System
    requires Enabled(s, e)
  {
    match e
    case Process(chunk) => s.(ops := s.ops + Feeds(chunk), publishing := chunk)
    case Publish => s.(publishing := [], tap := if s.phase.Stopped? then s.tap else s.tap + [s.publishing])
    case ReaderEnds => s.(tapOpen := false)
    case Receive(accepted) =>
      var batch := s.phase.batch + s.tap[0];
      if |batch| >= TERMINAL_OUTPUT_FRAME_BYTES
      then s.(tap := s.tap[1..], phase := Forwarding([]), sink := Queued(s.sink, Output(batch), accepted))
      else s.(tap := s.tap[1..], phase := Forwarding(batch))
    case Drained(accepted) =>
      s.(sink := Flushed(s.sink, s.phase.batch, accepted), phase := if s.tapOpen then Waiting else Ending)
    case Attach(accepted) => s.(sink := Queued(Some([]), Hello, accepted), phase := Greeting)
    case Snapshot => s.(tap := [], phase := Painting(|s.ops|, !s.tapOpen))
    case Paint(accepted) =>
      s.(sink := Queued(s.sink, Redraw(s.phase.at), accepted),
         phase := if s.phase.exited then Ending else Forwarding([]))
    case Detach => s.(sink := None, phase := Forwarding([]))
    case ReportError(accepted) => s.(sink := Queued(s.sink, Error, accepted), phase := Forwarding([]))
    case Resize(rows, cols) => s.(ops := s.ops + [SetSize(rows, cols)], phase := Forwarding([]))
    case Idle => s.(phase := Forwarding([]))
    case Kill => s.(sink := None, phase := Stopped)
    case SendExit(accepted) => s.(sink := Queued(s.sink, Exit, accepted), phase := Stopped)
  }

  const INITIAL: System := System([], [], [], true, Forwarding([]), None)

  ghost predicate Run(states: seq<System>, events: seq<Event>) {
    && |states| == |events| + 1
    && states[0] == INITIAL
    && forall i :: 0 <= i < |events| ==> Enabled(states[i], events[i]) && states[i + 1] == Next(states[i], events[i])
  }

  // ---------------------------------------------------------------- lists of frames and operations

  lemma {:induction false} BytesOfAppend(xs: seq<ParserOp>, ys: seq<ParserOp>)
    ensures BytesOf(xs + ys) == BytesOf(xs) + BytesOf(ys)
  {
    if xs == [] {
      assert xs + ys == ys;
    } else {
      BytesOfAppend(xs[1..], ys);
      AppendSplit(xs, ys);
      AddAssociates(ByteOf(xs[0]), BytesOf(xs[1..]), BytesOf(ys));
    }
  }

  lemma {:induction false} BytesOfFeeds(bytes: seq<byte>)
    ensures BytesOf(Feeds(bytes)) == bytes
  {
    if bytes != [] {
      BytesOfFeeds(bytes[1..]);
      assert Feeds(bytes)[1..] == Feeds(bytes[1..]);
    }
  }

  lemma {:induction false} StreamedAppend(xs: seq<Frame>, ys: seq<Frame>)
    ensures Streamed(xs + ys) == Streamed(xs) + Streamed(ys)
  {
    if xs == [] {
      assert xs + ys == ys;
    } else {
      StreamedAppend(xs[1..], ys);
      AppendSplit(xs, ys);
      AddAssociates(Payload(xs[0]), Streamed(xs[1..]), Streamed(ys));
    }
  }

  lemma StreamedOne(f: Frame)
    ensures Streamed([f]) == if f.Output? then f.bytes else []
  {
  }

  // ---------------------------------------------------------------- the invariant

  /** Bytes the parser has seen that are still on their way to the queue. */
  function InFlight(s: System): seq<byte> {
    (if s.phase.Forwarding? then s.phase.batch else []) + Concat(s.tap) + s.publishing
  }

  /** Frames as one attach produces them: a hello, the redraw, then live output and reports, and an
      exit frame only at the very end. */
  ghost predicate WellFormed(frames: seq<Frame>) {
    && |frames| >= 2 && frames[0] == Hello && frames[1].Redraw?
    && (forall i :: 2 <= i < |frames| ==> frames[i].Output? || frames[i].Error? || frames[i].Exit?)
    && (forall i :: 2 <= i < |frames| - 1 ==> !frames[i].Exit?)
  }

  ghost predicate Painted(s: System) {
    s.sink.Some? && !s.phase.Greeting? && !s.phase.Painting?
  }

  /** Exactly once, byte for byte: what was queued after the redraw and what is still in flight are
      together the bytes the parser took after the snapshot. */
  ghost predicate ExactlyOnce(s: System)
    requires s.sink.Some?
  {
    && WellFormed(s.sink.value)
    && s.sink.value[1].at <= |s.ops|
    && Streamed(s.sink.value[2..]) + InFlight(s) == BytesOf(s.ops[s.sink.value[1].at..])
  }

  ghost predicate NothingInFlight(s: System) {
    !s.tapOpen && s.publishing == [] && s.tap == []
  }

  ghost predicate Inv(s: System) {
    && (s.phase.Greeting? && s.sink.Some? ==> s.sink.value == [Hello])
    && (s.phase.Painting? ==>
          && s.phase.at <= |s.ops|
          && Concat(s.tap) + s.publishing == BytesOf(s.ops[s.phase.at..])
          && (s.phase.exited ==> NothingInFlight(s))
          && (s.sink.Some? ==> s.sink.value == [Hello]))
    && (Painted(s) ==> ExactlyOnce(s))
    && (!s.tapOpen ==> s.publishing == [])
    && (s.phase.Ending? ==> NothingInFlight(s))
    && (Painted(s) && s.phase.Stopped? ==> NothingInFlight(s))
    && (Painted(s) ==> (s.sink.value[|s.sink.value| - 1] == Exit <==> s.phase.Stopped?))
  }

  lemma QueueKeepsStream(frames: seq<Frame>, f: Frame)
    requires WellFormed(frames) && frames[|frames| - 1] != Exit && (f.Output? || f.Error? || f.Exit?)
    ensures WellFormed(frames + [f])
    ensures Streamed((frames + [f])[2..]) == Streamed(frames[2..]) + (if f.Output? then f.bytes else [])
  {
    assert (frames + [f])[2..] == frames[2..] + [f];
    StreamedAppend(frames[2..], [f]);
    StreamedOne(f);
  }

  lemma ReportKeepsStream(frames: seq<Frame>, f: Frame)
    requires WellFormed(frames) && frames[|frames| - 1] != Exit && (f.Error? || f.Exit?)
    ensures WellFormed(frames + [f]) && (frames + [f])[1] == frames[1]
    ensures Streamed((frames + [f])[2..]) == Streamed(frames[2..])
  {
    QueueKeepsStream(frames, f);
    assert Streamed(frames[2..]) + [] == Streamed(frames[2..]);
  }

  lemma OpsAppend(ops: seq<ParserOp>, more: seq<ParserOp>, at: nat)
    requires at <= |ops|
    ensures BytesOf((ops + more)[at..]) == BytesOf(ops[at..]) + BytesOf(more)
  {
    assert (ops + more)[at..] == ops[at..] + more;
    BytesOfAppend(ops[at..], more);
  }

  lemma OpsFed(ops: seq<ParserOp>, chunk: seq<byte>, at: nat)
    requires at <= |ops|
    ensures BytesOf((ops + Feeds(chunk))[at..]) == BytesOf(ops[at..]) + chunk
  {
    OpsAppend(ops, Feeds(chunk), at);
    BytesOfFeeds(chunk);
  }

  lemma ProcessKeepsInv(s: System, chunk: seq<byte>)
    requires Inv(s) && Enabled(s, Process(chunk))
    ensures Inv(Next(s, Process(chunk)))
  {
    hide Streamed, Concat, BytesOf, Feeds;
    var s' := Next(s, Process(chunk));
    assert s'.phase == s.phase && s'.sink == s.sink && s'.tap == s.tap;
    if s.phase.Painting? {
      OpsFed(s.ops, chunk, s.phase.at);
      assert Concat(s.tap) + s.publishing == Concat(s.tap);
    } else if s.sink.Some? && !s.phase.Greeting? {
      assert ExactlyOnce(s);
      OpsFed(s.ops, chunk, s.sink.value[1].at);
      assert InFlight(s') == InFlight(s) + chunk;
    }
  }

  lemma PublishKeepsInv(s: System)
    requires Inv(s) && Enabled(s, Publish)
    ensures Inv(Next(s, Publish))
  {
    hide WellFormed, Streamed, Concat, BytesOf;
    ConcatAppend(s.tap, [s.publishing]);
    ConcatOne(s.publishing);
    var s' := Next(s, Publish);
    assert !s.phase.Stopped? ==> Concat(s'.tap) + s'.publishing == Concat(s.tap) + s.publishing;
    if Painted(s) && !s.phase.Stopped? {
      assert ExactlyOnce(s);
      AddAssociates(if s.phase.Forwarding? then s.phase.batch else [], Concat(s.tap), s.publishing);
      AddAssociates(if s.phase.Forwarding? then s.phase.batch else [], Concat(s'.tap), s'.publishing);
      assert InFlight(s') == InFlight(s);
    }
  }

  /** Moving a batch from in flight into the queue leaves the client's stream the same. */
  lemma FlushKeepsStream(frames: seq<Frame>, batch: seq<byte>, rest: seq<byte>)
    requires WellFormed(frames) && frames[|frames| - 1] != Exit
    ensures WellFormed(frames + [Output(batch)])
    ensures Streamed((frames + [Output(batch)])[2..]) + rest == Streamed(frames[2..]) + (batch + rest)
  {
    QueueKeepsStream(frames, Output(batch));
  }

  lemma ReceiveKeepsInv(s: System, accepted: bool)
    requires Inv(s) && Enabled(s, Receive(accepted))
    ensures Inv(Next(s, Receive(accepted)))
  {
    hide WellFormed, Streamed, Concat, BytesOf;
    var s' := Next(s, Receive(accepted));
    var batch, rest := s.phase.batch + s.tap[0], Concat(s.tap[1..]) + s.publishing;
    if s.sink.Some? {
      assert ExactlyOnce(s);
      ReceivedInFlight(s);
      if |batch| < TERMINAL_OUTPUT_FRAME_BYTES {
        assert s'.sink == s.sink && s'.ops == s.ops && InFlight(s') == batch + rest by {
          AddAssociates(batch, Concat(s.tap[1..]), s.publishing);
        }
      } else if accepted {
        assert s'.sink.value == s.sink.value + [Output(batch)] && s'.ops == s.ops;
        assert InFlight(s') == rest by { assert [] + Concat(s.tap[1..]) == Concat(s.tap[1..]); }
        FlushKeepsStream(s.sink.value, batch, rest);
      }
    }
  }

  lemma ReceivedInFlight(s: System)
    requires s.phase.Forwarding? && s.tap != []
    ensures InFlight(s) == (s.phase.batch + s.tap[0]) + (Concat(s.tap[1..]) + s.publishing)
  {
  }

  lemma DrainedKeepsInv(s: System, accepted: bool)
    requires Inv(s) && Enabled(s, Drained(accepted))
    ensures Inv(Next(s, Drained(accepted)))
  {
    hide WellFormed, Streamed, Concat, BytesOf;
    var s' := Next(s, Drained(accepted));
    var batch, rest := s.phase.batch, Concat(s.tap) + s.publishing;
    if s'.sink.Some? {
      assert ExactlyOnce(s);
      AddAssociates(batch, Concat(s.tap), s.publishing);
      assert InFlight(s) == batch + rest && InFlight(s') == rest && s'.ops == s.ops;
      if batch == [] {
        assert s'.sink == s.sink && batch + rest == rest;
      } else {
        assert s'.sink.value == s.sink.value + [Output(batch)];
        FlushKeepsStream(s.sink.value, batch, rest);
      }
    }
  }

  lemma AttachKeepsInv(s: System, e: Event)
    requires Inv(s) && Enabled(s, e) && (e.Attach? || e.Snapshot? || e.Paint?)
    ensures Inv(Next(s, e))
  {
  }

  /** An error report or the exit frame adds no bytes to the stream. */
  lemma ReportKeepsInv(s: System, e: Event)
    requires Inv(s) && Enabled(s, e) && (e.ReportError? || e.SendExit?)
    ensures Inv(Next(s, e))
  {
    var s' := Next(s, e);
    if s'.sink.Some? {
      var report := if e.SendExit? then Exit else Error;
      assert ExactlyOnce(s) && InFlight(s') == InFlight(s);
      ReportKeepsStream(s.sink.value, report);
      assert s'.sink.value == s.sink.value + [report] && s'.ops == s.ops;
    }
  }

  lemma ResizeKeepsInv(s: System, rows: nat, cols: nat)
    requires Inv(s) && Enabled(s, Resize(rows, cols))
    ensures Inv(Next(s, Resize(rows, cols)))
  {
    var s' := Next(s, Resize(rows, cols));
    if s'.sink.Some? {
      assert ExactlyOnce(s) && InFlight(s') == InFlight(s) && s'.sink == s.sink;
      OpsAppend(s.ops, [SetSize(rows, cols)], s.sink.value[1].at);
      assert BytesOf([SetSize(rows, cols)]) == [];
    }
  }

  lemma OthersKeepInv(s: System, e: Event)
    requires Inv(s) && Enabled(s, e) && (e.Detach? || e.Idle? || e.Kill?)
    ensures Inv(Next(s, e))
  {
  }

  lemma ReaderEndsKeepsInv(s: System)
    requires Inv(s) && Enabled(s, ReaderEnds)
    ensures Inv(Next(s, ReaderEnds))
  {
  }

  lemma {:induction false} RunKeepsInv(states: seq<System>, events: seq<Event>, k: nat)
    requires Run(states, events) && k < |states|
    ensures Inv(states[k])
  {
    if k > 0 {
      RunKeepsInv(states, events, k - 1);
      var e := events[k - 1];
      if e.Process? { ProcessKeepsInv(states[k - 1], e.chunk); }
      else if e.Publish? { PublishKeepsInv(states[k - 1]); }
      else if e.ReaderEnds? { ReaderEndsKeepsInv(states[k - 1]); }
      else if e.Receive? { ReceiveKeepsInv(states[k - 1], e.accepted); }
      else if e.Drained? { DrainedKeepsInv(states[k - 1], e.accepted); }
      else if e.Attach? || e.Snapshot? || e.Paint? { AttachKeepsInv(states[k - 1], e); }
      else if e.ReportError? || e.SendExit? { ReportKeepsInv(states[k - 1], e); }
      else if e.Resize? { ResizeKeepsInv(states[k - 1], e.rows, e.cols); }
      else { OthersKeepInv(states[k - 1], e); }
    }
  }

  // ---------------------------------------------------------------- what a visit gets

  /** The step queues a frame and the socket does not take it. */
  predicate Refuses(s: System, e: Event) {
    match e
    case Receive(accepted) =>
      !accepted && s.phase.Forwarding? && s.tap != [] && |s.phase.batch + s.tap[0]| >= TERMINAL_OUTPUT_FRAME_BYTES
    case Drained(accepted) => !accepted && s.phase.Forwarding? && s.phase.batch != []
    case Attach(accepted) => !accepted
    case Paint(accepted) => !accepted
    case ReportError(accepted) => !accepted
    case SendExit(accepted) => !accepted
    case _ => false
  }

  /** The socket leaves, is closed with its child, or is let go because it did not take a frame. */
  predicate Parts(s: System, e: Event) {
    e.Detach? || e.Kill? || Refuses(s, e)
  }

  /** The frame a step queues, if any. */
  function NewFrames(s: System, e: Event): seq<Frame>
    requires Enabled(s, e)
  {
    match e
    case Receive(_) =>
      var batch := s.phase.batch + s.tap[0];
      if |batch| >= TERMINAL_OUTPUT_FRAME_BYTES then [Output(batch)] else []
    case Drained(_) => if s.phase.batch == [] then [] else [Output(s.phase.batch)]
    case Paint(_) => [Redraw(s.phase.at)]
    case ReportError(_) => [Error]
    case SendExit(_) => [Exit]
    case _ => []
  }

  lemma PartStep(s: System, e: Event)
    requires Enabled(s, e) && Parts(s, e)
    ensures Next(s, e).sink == None
  {
  }

  lemma AttachStep(s: System, e: Event)
    requires Enabled(s, e) && e.Attach? && !Parts(s, e)
    ensures Next(s, e).sink == Some([Hello])
  {
    var none: seq<Frame> := [];
    assert none + [Hello] == [Hello];
  }

  lemma StayStep(s: System, e: Event)
    requires Enabled(s, e) && !e.Attach? && !Parts(s, e)
    ensures Next(s, e).sink == if s.sink.Some? then Some(s.sink.value + NewFrames(s, e)) else None
  {
    if s.sink.Some? { assert s.sink.value + [] == s.sink.value; }
  }

  ghost predicate OneVisit(states: seq<System>, events: seq<Event>, j: nat, i: nat)
    requires i <= |events| <= |states|
  {
    forall k :: j <= k < i ==> !events[k].Attach? && !Parts(states[k], events[k])
  }

  /** While a client stays, nothing that was queued for it is taken back. */
  lemma {:induction false} FramesOnlyGrow(states: seq<System>, events: seq<Event>, j: nat, i: nat)
    requires Run(states, events) && j <= i < |states| && states[j].sink.Some? && OneVisit(states, events, j, i)
    ensures states[i].sink.Some? && states[j].sink.value <= states[i].sink.value
    decreases i - j
  {
    hide Next, Enabled, Parts;
    if j < i {
      FramesOnlyGrow(states, events, j, i - 1);
      StayStep(states[i - 1], events[i - 1]);
    }
  }

  /** After the socket has gone nobody is served until the next attach. */
  lemma {:induction false} NobodyUntilAttach(states: seq<System>, events: seq<Event>, j: nat, i: nat)
    requires Run(states, events) && j < i < |states| && Parts(states[j], events[j])
    requires forall k :: j < k < i ==> !events[k].Attach?
    ensures states[i].sink == None
    decreases i - j
  {
    hide Next, Enabled, Parts;
    if Parts(states[i - 1], events[i - 1]) {
      PartStep(states[i - 1], events[i - 1]);
    } else {
      NobodyUntilAttach(states, events, j, i - 1);
      StayStep(states[i - 1], events[i - 1]);
    }
  }

  function Errors(frames: seq<Frame>): nat {
    if frames == [] then 0
    else Errors(frames[..|frames| - 1]) + if frames[|frames| - 1].Error? then 1 else 0
  }

  lemma {:induction false} ErrorsAppend(xs: seq<Frame>, ys: seq<Frame>)
    ensures Errors(xs + ys) == Errors(xs) + Errors(ys)
  {
    if ys == [] {
      assert xs + ys == xs;
    } else {
      ErrorsAppend(xs, ys[..|ys| - 1]);
      assert (xs + ys)[..|xs + ys| - 1] == xs + ys[..|ys| - 1];
    }
  }

  function Reports(events: seq<Event>, j: nat, i: nat): nat
    requires j <= i <= |events|
    decreases i - j
  {
    if i == j then 0 else Reports(events, j, i - 1) + if events[i - 1].ReportError? then 1 else 0
  }

  /** A client is told of every failed write and every failed resize since it attached, and of nothing else. */
  lemma {:induction false} FailuresAreReported(states: seq<System>, events: seq<Event>, j: nat, i: nat)
    requires Run(states, events) && j < i < |states| && events[j].Attach? && states[i].sink.Some?
    requires forall k :: j < k < i ==> !events[k].Attach?
    ensures Errors(states[i].sink.value) == Reports(events, j + 1, i)
    decreases i - j
  {
    hide Next, Enabled, Parts;
    var s, e := states[i - 1], events[i - 1];
    if Parts(s, e) {
      PartStep(s, e);
      assert false;
    } else if e.Attach? {
      AttachStep(s, e);
      assert [Hello][..0] == [];
    } else {
      StayStep(s, e);
      FailuresAreReported(states, events, j, i - 1);
      ErrorsAppend(s.sink.value, NewFrames(s, e));
      assert NewFrames(s, e) != [] ==> NewFrames(s, e)[..0] == [];
    }
  }

  /** When the child ends, a client that is there and takes the frame is told so, after everything else. */
  lemma ClientIsToldOfTheExit(states: seq<System>, events: seq<Event>, i: nat)
    requires Run(states, events) && i < |events| && events[i] == SendExit(true) && Painted(states[i])
    ensures Painted(states[i + 1]) && states[i + 1].sink == Some(states[i].sink.value + [Exit])
    ensures ExactlyOnce(states[i])
    ensures Streamed(states[i].sink.value[2..]) == BytesOf(states[i].ops[states[i].sink.value[1].at..])
  {
    hide Next, Enabled, Streamed, BytesOf;
    RunKeepsInv(states, events, i);
    StayStep(states[i], events[i]);
    EndingIsPainted(states[i], events[i]);
    var before := states[i].sink.value;
    assert ExactlyOnce(states[i]) && InFlight(states[i]) == [];
    assert Streamed(before[2..]) + [] == Streamed(before[2..]);
  }

  lemma EndingIsPainted(s: System, e: Event)
    requires Enabled(s, e) && e == SendExit(true)
    ensures s.phase.Ending? && Next(s, e).phase.Stopped?
  {
  }

  /** Everything the reader read and every change of size, in order. */
  function Taken(events: seq<Event>, i: nat): seq<ParserOp>
    requires i <= |events|
  {
    if i == 0 then []
    else
      Taken(events, i - 1)
      + match events[i - 1]
        case Process(chunk) => Feeds(chunk)
        case Resize(rows, cols) => [SetSize(rows, cols)]
        case _ => []
  }

  /** The parser goes through just that. */
  lemma {:induction false} ParserTakesAll(states: seq<System>, events: seq<Event>, i: nat)
    requires Run(states, events) && i < |states|
    ensures states[i].ops == Taken(events, i)
  {
    if i > 0 {
      ParserTakesAll(states, events, i - 1);
    }
  }

  // ---------------------------------------------------------------- what the client sees

  /** A terminal emulator as an abstract fold over parser operations. */
  function Screen<S>(step: (S, ParserOp) -> S, start: S, ops: seq<ParserOp>): S {
    if ops == [] then start else Screen(step, step(start, ops[0]), ops[1..])
  }

  /** What an emulator's state is to a redraw: `shown` is the part that the redraw writes out (visible
      cells, cursor, attributes, input modes) and `hidden` the part that it does not (a half-read
      escape sequence, the scroll region, origin mode, the saved cursor, the grid not shown). */
  datatype Emulator<H, V> = Emulator(hidden: H, shown: V)

  /** The client's terminal once it has taken the redraw made of `snapshot`: the shown part is that of
      the snapshot, the hidden part the client's own, `idle`. */
  function Redrawn<H, V>(idle: H, snapshot: Emulator<H, V>): Emulator<H, V> {
    Emulator(idle, snapshot.shown)
  }

  /** A client terminal: output bytes drive its emulator as they drive the server's. */
  function Show<H, V>(step: (Emulator<H, V>, ParserOp) -> Emulator<H, V>, idle: H, start: Emulator<H, V>,
      ops: seq<ParserOp>, client: Emulator<H, V>, frames: seq<Frame>): Emulator<H, V>
    requires forall i :: 0 <= i < |frames| && frames[i].Redraw? ==> frames[i].at <= |ops|
    decreases |frames|
  {
    if frames == [] then client
    else
      var f := frames[0];
      var next := if f.Redraw? then Redrawn(idle, Screen(step, start, ops[..f.at]))
                  else if f.Output? then Screen(step, client, Feeds(f.bytes))
                  else client;
      Show(step, idle, start, ops, next, frames[1..])
  }

  lemma {:induction false} ScreenAppend<S>(step: (S, ParserOp) -> S, start: S, xs: seq<ParserOp>, ys: seq<ParserOp>)
    ensures Screen(step, start, xs + ys) == Screen(step, Screen(step, start, xs), ys)
  {
    if xs == [] {
      assert xs + ys == ys;
    } else {
      ScreenAppend(step, step(start, xs[0]), xs[1..], ys);
      assert (xs + ys)[1..] == xs[1..] + ys;
    }
  }

  lemma FeedsAppend(xs: seq<byte>, ys: seq<byte>)
    ensures Feeds(xs + ys) == Feeds(xs) + Feeds(ys)
  {
  }

  lemma {:induction false} ShowsStream<H, V>(step: (Emulator<H, V>, ParserOp) -> Emulator<H, V>, idle: H,
      start: Emulator<H, V>, ops: seq<ParserOp>, client: Emulator<H, V>, frames: seq<Frame>)
    requires forall i :: 0 <= i < |frames| ==> !frames[i].Redraw?
    ensures Show(step, idle, start, ops, client, frames) == Screen(step, client, Feeds(Streamed(frames)))
    decreases |frames|
  {
    if frames != [] {
      var f := frames[0];
      var next := if f.Output? then Screen(step, client, Feeds(f.bytes)) else client;
      ShowsStream(step, idle, start, ops, next, frames[1..]);
      if f.Output? {
        FeedsAppend(f.bytes, Streamed(frames[1..]));
        ScreenAppend(step, client, Feeds(f.bytes), Feeds(Streamed(frames[1..])));
      } else {
        assert [] + Streamed(frames[1..]) == Streamed(frames[1..]);
      }
    }
  }

  lemma {:induction false} OnlyFeeds(ops: seq<ParserOp>)
    requires forall i :: 0 <= i < |ops| ==> ops[i].Feed?
    ensures Feeds(BytesOf(ops)) == ops
  {
    if ops != [] {
      OnlyFeeds(ops[1..]);
      FeedsAppend([ops[0].b], BytesOf(ops[1..]));
      assert ops == [ops[0]] + ops[1..];
    }
  }

  /** Redraw plus live stream is exactly-once: in any reachable state of an attached socket, the
      live bytes already queued and those still in flight are exactly what the parser took after
      the snapshot, in order, with resizes anywhere. */
  lemma StreamIsExactlyOnce(states: seq<System>, events: seq<Event>, k: nat)
    requires Run(states, events) && k < |states| && Painted(states[k])
    ensures ExactlyOnce(states[k])
  {
    RunKeepsInv(states, events, k);
  }

  /** Where an attached client gets to, whatever its terminal showed before and whatever was resized:
      the queued frames put it at the redraw of the snapshot and then some bytes on; with what is still
      in flight it is exactly at the redraw plus every byte the parser took since. */
  lemma ClientShows<H, V>(states: seq<System>, events: seq<Event>, k: nat,
      step: (Emulator<H, V>, ParserOp) -> Emulator<H, V>, idle: H, start: Emulator<H, V>, client: Emulator<H, V>)
    requires Run(states, events) && k < |states| && Painted(states[k])
    requires WellFormed(states[k].sink.value) && states[k].sink.value[1].at <= |states[k].ops|
    ensures var s := states[k];
            var frames, at := s.sink.value, s.sink.value[1].at;
            var drawn := Redrawn(idle, Screen(step, start, s.ops[..at]));
            var shown := Show(step, idle, start, s.ops, client, frames);
            && shown == Screen(step, drawn, Feeds(Streamed(frames[2..])))
            && Streamed(frames[2..]) <= BytesOf(s.ops[at..])
            && Screen(step, shown, Feeds(InFlight(s))) == Screen(step, drawn, Feeds(BytesOf(s.ops[at..])))
  {
    StreamIsExactlyOnce(states, events, k);
    var s := states[k];
    var frames, at := s.sink.value, s.sink.value[1].at;
    var drawn := Redrawn(idle, Screen(step, start, s.ops[..at]));
    assert frames[1..][1..] == frames[2..];
    assert Show(step, idle, start, s.ops, client, frames) == Show(step, idle, start, s.ops, drawn, frames[2..]);
    ShowsStream(step, idle, start, s.ops, drawn, frames[2..]);
    FeedsAppend(Streamed(frames[2..]), InFlight(s));
    ScreenAppend(step, drawn, Feeds(Streamed(frames[2..])), Feeds(InFlight(s)));
  }

  /** Redrawing and then feeding follows the parser at every byte if and only if it does at the redraw. */
  lemma FollowsIffIdle<H, V>(step: (Emulator<H, V>, ParserOp) -> Emulator<H, V>, idle: H, start: Emulator<H, V>,
      ops: seq<ParserOp>, at: nat)
    requires at <= |ops|
    ensures var snapshot := Screen(step, start, ops[..at]);
            (forall n :: at <= n <= |ops| ==>
               Screen(step, Redrawn(idle, snapshot), ops[at..n]) == Screen(step, start, ops[..n]))
            <==> snapshot.hidden == idle
  {
    var snapshot := Screen(step, start, ops[..at]);
    forall n | at <= n <= |ops| ensures Screen(step, snapshot, ops[at..n]) == Screen(step, start, ops[..n]) {
      ScreenAppend(step, start, ops[..at], ops[at..n]);
      assert ops[..n] == ops[..at] + ops[at..n];
    }
    assert ops[at..at] == [];
  }

  /** If nothing resized the parser after the snapshot, an attached client is in the parser's own state
      from the redraw on, byte for byte, if and only if the parser's hidden state at the snapshot was
      the client's; and then, having applied the redraw, every queued frame and what is in flight, it
      is where the parser is. */
  lemma ClientCatchesUp<H, V>(states: seq<System>, events: seq<Event>, k: nat,
      step: (Emulator<H, V>, ParserOp) -> Emulator<H, V>, idle: H, start: Emulator<H, V>, client: Emulator<H, V>)
    requires Run(states, events) && k < |states| && Painted(states[k])
    requires WellFormed(states[k].sink.value) && states[k].sink.value[1].at <= |states[k].ops|
    requires forall i :: states[k].sink.value[1].at <= i < |states[k].ops| ==> states[k].ops[i].Feed?
    ensures var s, at := states[k], states[k].sink.value[1].at;
            var snapshot := Screen(step, start, s.ops[..at]);
            && ((forall n :: at <= n <= |s.ops| ==>
                   Screen(step, Redrawn(idle, snapshot), s.ops[at..n]) == Screen(step, start, s.ops[..n]))
                <==> snapshot.hidden == idle)
            && (snapshot.hidden == idle ==>
                  Screen(step, Show(step, idle, start, s.ops, client, s.sink.value), Feeds(InFlight(s)))
                  == Screen(step, start, s.ops))
  {
    var s, at := states[k], states[k].sink.value[1].at;
    ClientShows(states, events, k, step, idle, start, client);
    OnlyFeeds(s.ops[at..]);
    FollowsIffIdle(step, idle, start, s.ops, at);
    assert s.ops[at..|s.ops|] == s.ops[at..] && s.ops[..|s.ops|] == s.ops;
  }

  // ---------------------------------------------------------------- a redraw that loses state

  /** A terminal on which an escape byte swallows the byte after it, as the first byte of `ESC c` does. */
  function EscapeStep(e: Emulator<bool, seq<byte>>, op: ParserOp): Emulator<bool, seq<byte>> {
    if op.SetSize? then e
    else if e.hidden then Emulator(false, e.shown)
    else if op.b == 27 then Emulator(true, e.shown)
    else Emulator(false, e.shown + [op.b])
  }

  /** A client attaches between two reads that cut an escape sequence in half. */
  const CUT_EVENTS: seq<Event> :=
    [Drained(true), Process([27]), Publish, Attach(true), Snapshot, Paint(true), Process([99]), Publish]

  const CUT_1: System := INITIAL.(phase := Waiting)
  const CUT_2: System := CUT_1.(ops := [Feed(27)], publishing := [27])
  const CUT_3: System := CUT_1.(ops := [Feed(27)], tap := [[27]])
  const CUT_4: System := System([Feed(27)], [], [[27]], true, Greeting, Some([Hello]))
  const CUT_5: System := System([Feed(27)], [], [], true, Painting(1, false), Some([Hello]))
  const CUT_6: System := System([Feed(27)], [], [], true, Forwarding([]), Some([Hello, Redraw(1)]))
  const CUT_7: System := CUT_6.(ops := [Feed(27), Feed(99)], publishing := [99])
  const CUT_8: System := CUT_6.(ops := [Feed(27), Feed(99)], tap := [[99]])

  const CUT_STATES: seq<System> := [INITIAL, CUT_1, CUT_2, CUT_3, CUT_4, CUT_5, CUT_6, CUT_7, CUT_8]

  lemma CutBeforeAttach()
    ensures Enabled(INITIAL, Drained(true)) && Next(INITIAL, Drained(true)) == CUT_1
    ensures Enabled(CUT_1, Process([27])) && Next(CUT_1, Process([27])) == CUT_2
    ensures Enabled(CUT_2, Publish) && Next(CUT_2, Publish) == CUT_3
    ensures Enabled(CUT_3, Attach(true)) && Next(CUT_3, Attach(true)) == CUT_4
  {
    assert CUT_1.ops + Feeds([27]) == [Feed(27)] && CUT_2.tap + [[27]] == [[27]];
    var none: seq<Frame> := [];
    assert none + [Hello] == [Hello];
  }

  lemma CutAfterAttach()
    ensures Enabled(CUT_4, Snapshot) && Next(CUT_4, Snapshot) == CUT_5
    ensures Enabled(CUT_5, Paint(true)) && Next(CUT_5, Paint(true)) == CUT_6
    ensures Enabled(CUT_6, Process([99])) && Next(CUT_6, Process([99])) == CUT_7
    ensures Enabled(CUT_7, Publish) && Next(CUT_7, Publish) == CUT_8
  {
    assert [Hello] + [Redraw(1)] == [Hello, Redraw(1)];
    assert CUT_6.ops + Feeds([99]) == [Feed(27), Feed(99)] && CUT_7.tap + [[99]] == [[99]];
  }

  lemma CutRuns()
    ensures Run(CUT_STATES, CUT_EVENTS)
  {
    hide Next, Enabled;
    CutBeforeAttach();
    CutAfterAttach();
  }

  /** A reachable run that ends with the parser showing nothing and a client that has applied every byte
      showing the second half of the sequence as text. */
  lemma RedrawCanLoseState(client: Emulator<bool, seq<byte>>)
    ensures Run(CUT_STATES, CUT_EVENTS) && CUT_STATES[8] == CUT_8 && Painted(CUT_8)
    ensures var s, start := CUT_8, Emulator(false, []);
            && Screen(EscapeStep, start, s.ops).shown == []
            && Screen(EscapeStep, Show(EscapeStep, false, start, s.ops, client, s.sink.value),
                      Feeds(InFlight(s))).shown == [99]
  {
    CutRuns();
    var s, start := CUT_8, Emulator(false, []);
    var held := EscapeStep(start, Feed(27));
    assert s.ops[..1] == [Feed(27)] && s.ops[1..] == [Feed(99)] && [Feed(27)][1..] == [] && [Feed(99)][1..] == [];
    assert Screen(EscapeStep, start, [Feed(27)]) == held && Screen(EscapeStep, held, [Feed(99)]).shown == [];
    RunKeepsInv(CUT_STATES, CUT_EVENTS, 8);
    ClientShows(CUT_STATES, CUT_EVENTS, 8, EscapeStep, false, start, client);
    assert BytesOf([Feed(99)]) == [99] && Feeds([99]) == [Feed(99)];
    assert [] + [99] == [99];
  }

  /** The exit frame comes after all output: once it is queued it is the last frame, nothing is in
      flight, and the stream is everything the parser ever took after the snapshot. */
  lemma ExitComesLast(states: seq<System>, events: seq<Event>, k: nat, i: nat)
    requires Run(states, events) && k < |states| && Painted(states[k])
    requires i < |states[k].sink.value| && states[k].sink.value[i] == Exit
    ensures i == |states[k].sink.value| - 1
    ensures WellFormed(states[k].sink.value) && states[k].sink.value[1].at <= |states[k].ops|
    ensures Streamed(states[k].sink.value[2..]) == BytesOf(states[k].ops[states[k].sink.value[1].at..])
    ensures !Enabled(states[k], Publish) && forall chunk :: !Enabled(states[k], Process(chunk))
  {
    RunKeepsInv(states, events, k);
    assert ExactlyOnce(states[k]);
    assert InFlight(states[k]) == [];
  }
}
