/** The owner thread's end of one socket: a queue bounded in frames and in bytes, and the byte
    counter that the owner and the socket task share without a lock. */
module TerminalSinks {
  import opened Basics
  import opened TerminalStreams
  import Hubs = TerminalHubs

  const TERMINAL_SINK_FRAMES: nat := 256
  const TERMINAL_SINK_BYTES: nat := 1_024 * 1_024

  /** What the PTY reader asks for at a time. */
  const READ_BUFFER: nat := 8_192

  datatype Disposition = Finished | Replaced | SlowConsumer

  datatype SinkState = SinkState(frames: seq<Frame>, queued: nat, receiverGone: bool, disposition: Disposition)

  class TerminalSink {
    var frames: seq<Frame>
    var queued: nat
    var receiverGone: bool
    var disposition: Disposition

    function View(): SinkState
      reads this
    {
      SinkState(frames, queued, receiverGone, disposition)
    }

    constructor ()
      ensures frames == [] && queued == 0 && !receiverGone && disposition == Finished
    {
      frames, queued, receiverGone, disposition := [], 0, false, Finished;
    }
  }

  /** The PTY output tap as one pass over it finds it. */
  class Tap {
    var chunks: seq<seq<byte>>
    const senderOpen: bool

    constructor (chunks: seq<seq<byte>>, senderOpen: bool)
      ensures this.chunks == chunks && this.senderOpen == senderOpen
    {
      this.chunks, this.senderOpen := chunks, senderOpen;
    }
  }

  datatype Verdict = Taken | TooSlow | Gone

  function Judge(queued: nat, waiting: nat, receiverGone: bool, weight: nat): Verdict {
    if queued + weight > TERMINAL_SINK_BYTES then TooSlow
    else if receiverGone then Gone
    else if waiting >= TERMINAL_SINK_FRAMES then TooSlow
    else Taken
  }

  /** The sink after one frame, taken or not. The counter is raised before the channel is asked. */
  function AfterQueue(s: SinkState, frame: Frame, weight: nat): SinkState {
    if s.queued + weight > TERMINAL_SINK_BYTES then s.(disposition := SlowConsumer)
    else match Judge(s.queued, |s.frames|, s.receiverGone, weight)
      case Taken => s.(queued := s.queued + weight, frames := s.frames + [frame])
      case TooSlow => s.(queued := s.queued + weight, disposition := SlowConsumer)
      case Gone => s.(queued := s.queued + weight)
  }

  /** Pieces of output one after another until one is not taken, and whether all were. */
  function QueueAll(s: SinkState, pieces: seq<seq<byte>>): (SinkState, bool)
    decreases |pieces|
  {
    if pieces == [] then (s, true)
    else
      var next := AfterQueue(s, Output(pieces[0]), |pieces[0]|);
      if Judge(s.queued, |s.frames|, s.receiverGone, |pieces[0]|).Taken? then QueueAll(next, pieces[1..])
      else (next, false)
  }

  /** All pieces are taken exactly if together they stay within both caps, given that somebody still
      receives; then the frames are theirs and the counter is raised by their bytes. */
  lemma {:induction false} QueueAllFits(s: SinkState, pieces: seq<seq<byte>>)
    ensures QueueAll(s, pieces).1 <==>
              || pieces == []
              || (!s.receiverGone && |s.frames| + |pieces| <= TERMINAL_SINK_FRAMES
                  && s.queued + |Concat(pieces)| <= TERMINAL_SINK_BYTES)
    ensures QueueAll(s, pieces).1 ==>
              QueueAll(s, pieces).0 == s.(frames := s.frames + Outputs(pieces), queued := s.queued + |Concat(pieces)|)
    decreases |pieces|
  {
    if pieces == [] {
      assert s.frames + Outputs(pieces) == s.frames;
    } else {
      var next := AfterQueue(s, Output(pieces[0]), |pieces[0]|);
      if Judge(s.queued, |s.frames|, s.receiverGone, |pieces[0]|).Taken? {
        QueueAllFits(next, pieces[1..]);
        assert Outputs(pieces) == [Output(pieces[0])] + Outputs(pieces[1..]);
        AddAssociates(s.frames, [Output(pieces[0])], Outputs(pieces[1..]));
      }
    }
  }

  /** Otherwise the first piece that does not fit ends it: the pieces before are queued, and the socket
      is told that it was too slow unless it was gone already and the bytes would have fitted. */
  lemma {:induction false} QueueAllStops(s: SinkState, pieces: seq<seq<byte>>) returns (n: nat)
    requires !QueueAll(s, pieces).1
    ensures n < |pieces| && QueueAll(s, pieces[..n]).1
    ensures var end, queued := QueueAll(s, pieces).0, s.queued + |Concat(pieces[..n])|;
            var tooHeavy := queued + |pieces[n]| > TERMINAL_SINK_BYTES;
            && (tooHeavy || s.receiverGone || |s.frames| + n >= TERMINAL_SINK_FRAMES)
            && end.frames == s.frames + Outputs(pieces[..n]) && end.receiverGone == s.receiverGone
            && end.queued == queued + (if tooHeavy then 0 else |pieces[n]|)
            && end.disposition == if s.receiverGone && !tooHeavy then s.disposition else SlowConsumer
    decreases |pieces|
  {
    var next := AfterQueue(s, Output(pieces[0]), |pieces[0]|);
    if Judge(s.queued, |s.frames|, s.receiverGone, |pieces[0]|).Taken? {
      var k := QueueAllStops(next, pieces[1..]);
      n := k + 1;
      assert pieces[..n][1..] == pieces[1..][..k];
      assert Outputs(pieces[..n]) == [Output(pieces[0])] + Outputs(pieces[1..][..k]);
      AddAssociates(s.frames, [Output(pieces[0])], Outputs(pieces[1..][..k]));
    } else {
      n := 0;
      assert pieces[..0] == [] && s.frames + Outputs([]) == s.frames;
    }
  }

  // ---------------------------------------------------------------- coalescing one drain pass

  function Coalesced(chunks: seq<seq<byte>>, batch: seq<byte>): seq<seq<byte>> {
    if chunks == [] then (if batch == [] then [] else [batch])
    else
      var grown := batch + chunks[0];
      if |grown| >= TERMINAL_OUTPUT_FRAME_BYTES then [grown] + Coalesced(chunks[1..], [])
      else Coalesced(chunks[1..], grown)
  }

  function Outputs(pieces: seq<seq<byte>>): seq<Frame> {
    seq(|pieces|, i requires 0 <= i < |pieces| => Output(pieces[i]))
  }

  /** Coalescing moves frame boundaries and nothing else. */
  lemma {:induction false} CoalescingKeepsBytes(chunks: seq<seq<byte>>, batch: seq<byte>)
    ensures Concat(Coalesced(chunks, batch)) == batch + Concat(chunks)
    decreases |chunks|
  {
    if chunks == [] {
      ConcatOne(batch);
    } else {
      var grown := batch + chunks[0];
      assert grown + Concat(chunks[1..]) == batch + (chunks[0] + Concat(chunks[1..]));
      if |grown| >= TERMINAL_OUTPUT_FRAME_BYTES {
        CoalescingKeepsBytes(chunks[1..], []);
        var later := Coalesced(chunks[1..], []);
        assert [] + Concat(chunks[1..]) == Concat(chunks[1..]);
        assert ([grown] + later)[0] == grown && ([grown] + later)[1..] == later;
      } else {
        CoalescingKeepsBytes(chunks[1..], grown);
      }
    }
  }

  /** Frames are full-sized except possibly the last, and overshoot the nominal size by less than
      one chunk. */
  lemma {:induction false} CoalescedSizes(chunks: seq<seq<byte>>, batch: seq<byte>, largest: nat)
    requires |batch| < TERMINAL_OUTPUT_FRAME_BYTES
    requires forall i :: 0 <= i < |chunks| ==> 0 < |chunks[i]| <= largest
    ensures forall i :: 0 <= i < |Coalesced(chunks, batch)| ==>
              0 < |Coalesced(chunks, batch)[i]| < TERMINAL_OUTPUT_FRAME_BYTES + largest
    ensures forall i :: 0 <= i < |Coalesced(chunks, batch)| - 1
                ==> |Coalesced(chunks, batch)[i]| >= TERMINAL_OUTPUT_FRAME_BYTES
    decreases |chunks|
  {
    if chunks != [] {
      var grown := batch + chunks[0];
      if |grown| >= TERMINAL_OUTPUT_FRAME_BYTES {
        CoalescedSizes(chunks[1..], [], largest);
      } else {
        CoalescedSizes(chunks[1..], grown, largest);
      }
    }
  }

  function Sizes(chunks: seq<seq<byte>>): seq<nat> {
    seq(|chunks|, i requires 0 <= i < |chunks| => |chunks[i]|)
  }

  /** Whether the running total of chunk sizes, started afresh at each full frame, ever jumps over
      the nominal frame size instead of meeting it. */
  predicate Jumps(sizes: seq<nat>, held: nat) {
    sizes != []
    && var grown := held + sizes[0];
       if grown >= TERMINAL_OUTPUT_FRAME_BYTES then grown > TERMINAL_OUTPUT_FRAME_BYTES || Jumps(sizes[1..], 0)
       else Jumps(sizes[1..], grown)
  }

  predicate HasOversized(pieces: seq<seq<byte>>) {
    exists piece :: piece in pieces && |piece| > TERMINAL_OUTPUT_FRAME_BYTES
  }

  lemma OversizedCons(first: seq<byte>, rest: seq<seq<byte>>)
    ensures HasOversized([first] + rest) <==> |first| > TERMINAL_OUTPUT_FRAME_BYTES || HasOversized(rest)
  {
    assert first in [first] + rest;
    assert forall piece :: piece in [first] + rest <==> piece == first || piece in rest;
  }

  /** A pass has a frame above the nominal size exactly if its chunk sizes jump over it. */
  lemma {:induction false} OversizedIffJumps(chunks: seq<seq<byte>>, batch: seq<byte>)
    requires |batch| < TERMINAL_OUTPUT_FRAME_BYTES
    ensures HasOversized(Coalesced(chunks, batch)) <==> Jumps(Sizes(chunks), |batch|)
    decreases |chunks|
  {
    if chunks != [] {
      var grown := batch + chunks[0];
      assert Sizes(chunks)[1..] == Sizes(chunks[1..]);
      if |grown| >= TERMINAL_OUTPUT_FRAME_BYTES {
        OversizedIffJumps(chunks[1..], []);
        OversizedCons(grown, Coalesced(chunks[1..], []));
      } else {
        OversizedIffJumps(chunks[1..], grown);
      }
    }
  }

  /** Such passes occur: a one-byte read and then eight reads that fill the reader's buffer give one
      frame of 65,537 bytes. */
  lemma OversizedFrameOccurs(bytes: seq<byte>) returns (chunks: seq<seq<byte>>)
    requires |bytes| == READ_BUFFER
    ensures forall i :: 0 <= i < |chunks| ==> 0 < |chunks[i]| <= READ_BUFFER
    ensures HasOversized(Coalesced(chunks, []))
  {
    chunks := [[0], bytes, bytes, bytes, bytes, bytes, bytes, bytes, bytes];
    var n := READ_BUFFER;
    assert Sizes(chunks) == [1, n, n, n, n, n, n, n, n];
    assert Jumps([n], 1 + 7 * n);
    assert Jumps([n, n, n], 1 + 5 * n) by { assert [n, n, n][1..] == [n, n] && [n, n][1..] == [n]; }
    assert Jumps([n, n, n, n, n], 1 + 3 * n) by {
      assert [n, n, n, n, n][1..] == [n, n, n, n] && [n, n, n, n][1..] == [n, n, n];
    }
    assert Jumps([n, n, n, n, n, n, n], 1 + n) by {
      assert [n, n, n, n, n, n, n][1..] == [n, n, n, n, n, n] && [n, n, n, n, n, n][1..] == [n, n, n, n, n];
    }
    assert Jumps(Sizes(chunks), 0) by {
      assert Sizes(chunks)[1..] == [n, n, n, n, n, n, n, n] && [n, n, n, n, n, n, n, n][1..] == [n, n, n, n, n, n, n];
    }
    OversizedIffJumps(chunks, []);
  }

  lemma {:induction false} OutputsStream(pieces: seq<seq<byte>>)
    ensures Streamed(Outputs(pieces)) == Concat(pieces)
  {
    if pieces != [] {
      OutputsStream(pieces[1..]);
      assert Outputs(pieces)[1..] == Outputs(pieces[1..]);
    }
  }

  /** The owner's forwarding steps, one after another with none of the reader's between. */
  function ForwardPass(s: System): System
    requires s.phase.Forwarding?
    decreases |s.tap|
  {
    if s.tap == [] then Next(s, Drained(true)) else ForwardPass(Next(s, Event.Receive(true)))
  }

  /** Step by step they come to what the method below does in one go for a socket that stays. */
  lemma {:induction false} PassQueuesCoalesced(s: System)
    requires s.phase.Forwarding? && s.sink.Some?
    ensures ForwardPass(s) == s.(tap := [], phase := if s.tapOpen then Waiting else Ending,
                                 sink := Some(s.sink.value + Outputs(Coalesced(s.tap, s.phase.batch))))
    decreases |s.tap|
  {
    if s.tap == [] {
      assert s.sink.value + [] == s.sink.value && Outputs([]) == [];
      assert Outputs([s.phase.batch]) == [Output(s.phase.batch)];
    } else {
      var grown := s.phase.batch + s.tap[0];
      PassQueuesCoalesced(Next(s, Event.Receive(true)));
      if |grown| >= TERMINAL_OUTPUT_FRAME_BYTES {
        var later := Coalesced(s.tap[1..], []);
        assert Outputs([grown] + later) == [Output(grown)] + Outputs(later);
        AddAssociates(s.sink.value, [Output(grown)], Outputs(later));
      }
    }
  }

  // ---------------------------------------------------------------- the owner thread's view

  class TerminalOwnerState {
    const hub: Hubs.TerminalHub
    const key: Hubs.Key
    const generation: nat
    const grace: nat
    var sink: TerminalSink?
    var connection: nat
    var deadline: Option<int>

    constructor (hub: Hubs.TerminalHub, key: Hubs.Key, generation: nat, grace: nat, now: int)
      ensures this.hub == hub && this.key == key && this.generation == generation && this.grace == grace
      ensures sink == null && connection == 0 && deadline == Some(now + grace)
    {
      this.hub, this.key, this.generation, this.grace := hub, key, generation, grace;
      sink, connection, deadline := null, 0, Some(now + grace);
    }

    /** Takeover: the socket that was here is told that it was replaced. */
    method Attach(attached: nat, next: TerminalSink)
      requires next != sink
      modifies this`sink, this`connection, this`deadline, sink
      ensures sink == next && connection == attached && deadline == None
      ensures old(sink) != null ==> old(sink).View() == old(sink.View()).(disposition := Replaced)
    {
      if sink != null {
        sink.disposition := Replaced;
      }
      connection, deadline, sink := attached, None, next;
    }

    /** Nobody is on this PTY any more. */
    method Release(now: int)
      modifies this`sink, this`deadline, hub
      ensures sink == null && deadline == Some(now + grace)
      ensures hub.View() == Hubs.AfterDetach(old(hub.View()), key, generation, connection)
    {
      sink := null;
      hub.MarkTerminalDetached(key, generation, connection);
      deadline := Some(now + grace);
    }

    /** Queues one frame, or releases the socket that did not take it. */
    method Queue(frame: Frame, weight: nat, now: int)
      modifies this`sink, this`deadline, hub, sink
      ensures old(sink) == null ==> sink == null && deadline == old(deadline) && hub.View() == old(hub.View())
      ensures old(sink) != null ==>
                var verdict := old(Judge(sink.queued, |sink.frames|, sink.receiverGone, weight));
                && old(sink).View() == old(AfterQueue(sink.View(), frame, weight))
                && (verdict.Taken? ==> sink == old(sink) && deadline == old(deadline) && hub.View() == old(hub.View()))
                && (!verdict.Taken? ==>
                      && sink == null && deadline == Some(now + grace)
                      && hub.View() == Hubs.AfterDetach(old(hub.View()), key, generation, connection))
    {
      if sink == null { return; }
      var active: TerminalSink := sink;
      var overflowed;
      if active.queued + weight > TERMINAL_SINK_BYTES {
        overflowed := true;
      } else {
        active.queued := active.queued + weight;
        if active.receiverGone {
          overflowed := false;
        } else if |active.frames| >= TERMINAL_SINK_FRAMES {
          overflowed := true;
        } else {
          active.frames := active.frames + [frame];
          return;
        }
      }
      if overflowed {
        active.disposition := SlowConsumer;
      }
      Release(now);
    }

    /** Forwards everything on the tap. The socket stays exactly if there is nothing to forward or
        somebody receives and the pass fits in both caps: then it has all its bytes, coalesced, and
        its counter is raised by just these. Otherwise it gets the frames before the first that was
        not taken and is released. The tap is drained regardless. */
    method ForwardOutput(tap: Tap, now: int) returns (closed: bool)
      modifies this`sink, this`deadline, hub, sink, tap
      ensures closed <==> !tap.senderOpen
      ensures tap.chunks == []
      ensures old(sink) == null ==> sink == null && deadline == old(deadline) && hub.View() == old(hub.View())
      ensures old(sink) != null ==>
                var pieces := Coalesced(old(tap.chunks), []);
                && (old(sink).View(), sink != null) == QueueAll(old(sink.View()), pieces)
                && (sink != null ==> sink == old(sink) && deadline == old(deadline) && hub.View() == old(hub.View()))
                && (sink == null ==>
                      && deadline == Some(now + grace)
                      && hub.View() == Hubs.AfterDetach(old(hub.View()), key, generation, connection))
      ensures old(sink) != null ==>
                var pieces, all := Coalesced(old(tap.chunks), []), Concat(old(tap.chunks));
                && (sink != null <==>
                      || pieces == []
                      || (!old(sink.receiverGone) && old(|sink.frames|) + |pieces| <= TERMINAL_SINK_FRAMES
                          && old(sink.queued) + |all| <= TERMINAL_SINK_BYTES))
                && (sink != null ==> sink.frames == old(sink.frames) + Outputs(pieces)
                                     && sink.queued == old(sink.queued) + |all|)
    {
      hide Judge, AfterQueue;
      var batch: seq<byte> := [];
      ghost var all, goal := tap.chunks, Coalesced(tap.chunks, []);
      ghost var before: Option<SinkState> := if sink == null then None else Some(sink.View());
      while tap.chunks != []
        invariant before.None? ==> sink == null && deadline == old(deadline) && hub.View() == old(hub.View())
        invariant before.Some? && sink != null ==>
                    && sink == old(sink) && deadline == old(deadline) && hub.View() == old(hub.View())
                    && QueueAll(before.value, goal) == QueueAll(sink.View(), Coalesced(tap.chunks, batch))
        invariant before.Some? && sink == null ==>
                    && deadline == Some(now + grace)
                    && hub.View() == Hubs.AfterDetach(old(hub.View()), key, generation, connection)
                    && QueueAll(before.value, goal) == (old(sink).View(), false)
        decreases |tap.chunks|
      {
        batch := batch + tap.chunks[0];
        tap.chunks := tap.chunks[1..];
        if |batch| >= TERMINAL_OUTPUT_FRAME_BYTES {
          assert ([batch] + Coalesced(tap.chunks, []))[1..] == Coalesced(tap.chunks, []);
          Queue(Output(batch), |batch|, now);
          batch := [];
        }
      }
      if batch != [] {
        assert [batch][1..] == [];
        Queue(Output(batch), |batch|, now);
      }
      closed := !tap.senderOpen;
      if before.Some? {
        QueueAllFits(before.value, goal);
        CoalescingKeepsBytes(all, []);
      }
    }
  }

  // ---------------------------------------------------------------- the shared byte counter

  /** Where the owner is inside one `Queue`: it has read the counter, then it has added to it. */
  datatype Enqueue = Between | Loaded(weight: nat) | Added(weight: nat)

  /** The counter of one sink with the frames it stands for: waiting in the channel, taken by the
      socket task but not yet written, or being enqueued. `refused` is the weight of a frame that
      was counted but that the channel did not take, after which the sink is no longer live. */
  datatype Budget = Budget(queued: int, channel: seq<nat>, writing: Option<nat>, enqueue: Enqueue,
                           live: bool, receiverGone: bool, refused: nat)

  datatype Step =
    | Load(weight: nat)
    | Add
    | TrySend
    | Receive
    | Written
    | SocketEnds
    | Release

  function Weight(channel: seq<nat>): nat {
    if channel == [] then 0 else channel[0] + Weight(channel[1..])
  }

  function Pending(b: Budget): nat {
    Weight(b.channel) + (if b.writing.Some? then b.writing.value else 0)
        + (if b.enqueue.Added? then b.enqueue.weight else 0)
  }

  predicate CanStep(b: Budget, step: Step) {
    match step
    case Load(_) => b.live && b.enqueue.Between?
    case Add => b.enqueue.Loaded?
    case TrySend => b.enqueue.Added?
    case Receive => !b.receiverGone && b.writing.None? && b.channel != []
    case Written => !b.receiverGone && b.writing.Some?
    case SocketEnds => !b.receiverGone && b.writing.None?
    case Release => b.live && b.enqueue.Between?
  }

  function StepBudget(b: Budget, step: Step): Budget
    requires CanStep(b, step)
  {
    match step
    case Load(weight) =>
      if b.queued + weight > TERMINAL_SINK_BYTES then b.(live := false) else b.(enqueue := Loaded(weight))
    case Add => b.(queued := b.queued + b.enqueue.weight, enqueue := Added(b.enqueue.weight))
    case TrySend =>
      if b.receiverGone || |b.channel| >= TERMINAL_SINK_FRAMES
      then b.(live := false, enqueue := Between, refused := b.enqueue.weight)
      else b.(channel := b.channel + [b.enqueue.weight], enqueue := Between)
    case Receive => b.(writing := Some(b.channel[0]), channel := b.channel[1..])
    case Written => b.(queued := b.queued - b.writing.value, writing := None)
    case SocketEnds => b.(receiverGone := true, channel := [])
    case Release => b.(live := false)
  }

  const EMPTY: Budget := Budget(0, [], None, Between, true, false, 0)

  ghost predicate BudgetRun(states: seq<Budget>, steps: seq<Step>) {
    && |states| == |steps| + 1
    && states[0] == EMPTY
    && forall i :: 0 <= i < |steps| ==> CanStep(states[i], steps[i]) && states[i + 1] == StepBudget(states[i], steps[i])
  }

  ghost predicate BudgetInv(b: Budget) {
    && 0 <= b.queued <= TERMINAL_SINK_BYTES
    && |b.channel| <= TERMINAL_SINK_FRAMES
    && (b.enqueue.Loaded? ==> b.queued + b.enqueue.weight <= TERMINAL_SINK_BYTES)
    && (b.live ==> b.refused == 0)
    && (!b.enqueue.Between? ==> b.live)
    && (!b.receiverGone ==> b.queued == Pending(b) + b.refused)
  }

  lemma {:induction false} WeightAppend(channel: seq<nat>, weight: nat)
    ensures Weight(channel + [weight]) == Weight(channel) + weight
  {
    if channel == [] {
      assert (channel + [weight])[1..] == [];
    } else {
      WeightAppend(channel[1..], weight);
      assert (channel + [weight])[1..] == channel[1..] + [weight];
    }
  }

  lemma StepKeepsBudget(b: Budget, step: Step)
    requires BudgetInv(b) && CanStep(b, step)
    ensures BudgetInv(StepBudget(b, step))
  {
    if step.TrySend? { WeightAppend(b.channel, b.enqueue.weight); }
  }

  /** In every interleaving of owner and socket task the counter of a live sink is exactly the
      weight of the frames queued, being written and being enqueued, and it stays within the cap. */
  lemma {:induction false} CounterIsExact(states: seq<Budget>, steps: seq<Step>, k: nat)
    requires BudgetRun(states, steps) && k < |states|
    ensures BudgetInv(states[k])
    ensures 0 <= states[k].queued <= TERMINAL_SINK_BYTES
    ensures states[k].live && !states[k].receiverGone ==> states[k].queued == Pending(states[k])
  {
    if k > 0 {
      CounterIsExact(states, steps, k - 1);
      StepKeepsBudget(states[k - 1], steps[k - 1]);
    }
  }

  /** The subtraction after a write never takes the counter below zero, even after the owner let
      the sink go. */
  lemma CounterNeverUnderflows(states: seq<Budget>, steps: seq<Step>, k: nat)
    requires BudgetRun(states, steps) && k < |steps| && steps[k].Written?
    ensures states[k].queued >= states[k].writing.value
  {
    CounterIsExact(states, steps, k);
  }

  /** The weights of the frames that the channel took, and of those written, in the first `i` steps. */
  function Accepted(states: seq<Budget>, steps: seq<Step>, i: nat): seq<nat>
    requires i < |states| == |steps| + 1
  {
    if i == 0 then []
    else
      var before, after := states[i - 1], states[i];
      Accepted(states, steps, i - 1)
      + if steps[i - 1].TrySend? && before.enqueue.Added? && after.live then [before.enqueue.weight] else []
  }

  function Delivered(states: seq<Budget>, steps: seq<Step>, i: nat): seq<nat>
    requires i < |states| == |steps| + 1
  {
    if i == 0 then []
    else
      Delivered(states, steps, i - 1)
      + if steps[i - 1].Written? && states[i - 1].writing.Some? then [states[i - 1].writing.value] else []
  }

  function Undelivered(b: Budget): seq<nat> {
    (if b.writing.Some? then [b.writing.value] else []) + b.channel
  }

  lemma DeliveryStep(b: Budget, step: Step, accepted: seq<nat>, delivered: seq<nat>)
    requires CanStep(b, step) && accepted == delivered + Undelivered(b) && (!b.enqueue.Between? ==> b.live)
    requires !StepBudget(b, step).receiverGone
    ensures accepted + (if step.TrySend? && StepBudget(b, step).live then [b.enqueue.weight] else []) ==
            delivered + (if step.Written? then [b.writing.value] else []) + Undelivered(StepBudget(b, step))
  {
    if step.Receive? { assert [b.channel[0]] + b.channel[1..] == b.channel; }
  }

  /** While somebody receives, frames are written in the order in which they were queued, and none is
      passed over. */
  lemma {:induction false} WrittenInOrder(states: seq<Budget>, steps: seq<Step>, i: nat)
    requires BudgetRun(states, steps) && i < |states| && !states[i].receiverGone
    ensures Accepted(states, steps, i) == Delivered(states, steps, i) + Undelivered(states[i])
  {
    if i > 0 {
      CounterIsExact(states, steps, i - 1);
      WrittenInOrder(states, steps, i - 1);
      DeliveryStep(states[i - 1], steps[i - 1], Accepted(states, steps, i - 1), Delivered(states, steps, i - 1));
    }
  }

  /** What the owner's three steps come to when the socket task does nothing between them. */
  function Enqueued(b: Budget, weight: nat): Budget
    requires CanStep(b, Load(weight))
  {
    var loaded := StepBudget(b, Load(weight));
    if !loaded.enqueue.Loaded? then loaded else StepBudget(StepBudget(loaded, Add), TrySend)
  }

  ghost predicate Counts(b: Budget, s: SinkState) {
    b.queued == s.queued && |b.channel| == |s.frames| && b.receiverGone == s.receiverGone
  }

  /** Queueing a frame is these steps: the counters agree before and after, and the sink lives on
      exactly if the frame is taken. */
  lemma QueueIsEnqueue(b: Budget, s: SinkState, frame: Frame, weight: nat)
    requires CanStep(b, Load(weight)) && Counts(b, s)
    ensures Counts(Enqueued(b, weight), AfterQueue(s, frame, weight))
    ensures Enqueued(b, weight).live <==> Judge(s.queued, |s.frames|, s.receiverGone, weight).Taken?
  {
  }
}
