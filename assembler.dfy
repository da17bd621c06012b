/** The frame assembler: the byte loop and the inactivity check of the
    bridge's main loop, over the frame buffer, its fill level, the "frame
    open" flag and the time of the last byte.

    `Step` and `Flush` give the meaning of one byte and of one timeout check
    on an abstract state; `FrameAssembler` is the same machine over a
    fixed 128-byte array, and its methods are proved to follow `Step` and
    `Flush`. `Run` feeds a whole stream of bytes through `Step`. */
module Assembly {
  import opened BusTypes

  /** Capacity of the frame buffer. */
  const BufferSize: nat := 128

  /** What the assembler knows: the bytes of the open frame, whether a
      frame is open, and when the last byte was read. */
  datatype AsmState = AsmState(frame: Frame, reading: bool, lastByteTime: Millis)

  /** The state at start-up (zero-initialised globals). */
  const PowerOn: AsmState := AsmState([], false, 0)

  /** Every reachable state: the frame fits the buffer, and a frame is open
      exactly when it holds at least its marker byte. */
  predicate Inv(st: AsmState)
  {
    && |st.frame| <= BufferSize
    && (st.reading <==> |st.frame| >= 1)
  }

  /** The new state and the frame handed to the decoder, if any. */
  datatype StepResult = StepResult(next: AsmState, done: Option<Frame>)

  /** A frame handed to the decoder, with the clock reading at which it was
      completed. */
  datatype Handover = Handover(frame: Frame, at: Millis)

  function Completed(d: Option<Frame>, now: Millis): seq<Handover>
  {
    if d.Some? then [Handover(d.value, now)] else []
  }

  /** One byte from the bus. */
  function Step(st: AsmState, b: Byte, marker: bool, now: Millis): (r: StepResult)
    ensures Inv(st) ==> Inv(r.next)
    ensures r.next.lastByteTime == now
    ensures r.done.Some? <==> marker && st.reading
  {
    var done := if marker && st.reading then Some(st.frame) else None;
    var reading := st.reading || marker;
    var kept := if marker then [] else st.frame;
    var frame := if reading && |kept| < BufferSize then kept + [b] else kept;
    StepResult(AsmState(frame, reading, now), done)
  }

  /** The inactivity check: an open frame whose last byte is more than
      `timeout` ms old is handed over and the assembler becomes idle. */
  function Flush(st: AsmState, now: Millis, timeout: Millis): (r: StepResult)
    ensures Inv(st) ==> Inv(r.next)
    ensures r.done.Some? ==> r.done == Some(st.frame) && r.next.frame == [] && !r.next.reading
    ensures r.done.None? ==> r.next == st
  {
    if st.reading && Elapsed(now, st.lastByteTime) > timeout
    then StepResult(AsmState([], false, st.lastByteTime), Some(st.frame))
    else StepResult(st, None)
  }

  /** The bytes of a stretch of samples. */
  function Bytes(s: seq<Sample>): (r: seq<Byte>)
    ensures |r| == |s| && forall i :: 0 <= i < |s| ==> r[i] == s[i].b
  {
    seq(|s|, i requires 0 <= i < |s| => s[i].b)
  }

  /** At most the first `BufferSize` bytes of `x`. */
  function Cap(x: seq<Byte>): (r: seq<Byte>)
    ensures |r| <= BufferSize && r <= x
    ensures |x| <= BufferSize ==> r == x
    ensures |x| > BufferSize ==> r == x[..BufferSize]
  {
    if |x| <= BufferSize then x else x[..BufferSize]
  }

  predicate NoMarker(s: seq<Sample>)
  {
    forall i :: 0 <= i < |s| ==> !s[i].marker
  }

  /** The state after a stream, and the frames handed to the decoder, oldest
      first, each with the clock reading of the byte that completed it. */
  datatype RunResult = RunResult(state: AsmState, handovers: seq<Handover>)

  /** Feed a stream of samples, oldest first, through `Step`, collecting the
      frames handed to the decoder. Each byte completes at most one frame. */
  function Run(st: AsmState, s: seq<Sample>): (r: RunResult)
    ensures |r.handovers| <= |s|
    decreases |s|
  {
    if s == [] then RunResult(st, [])
    else
      var prior := Run(st, s[..|s| - 1]);
      var x := s[|s| - 1];
      var step := Step(prior.state, x.b, x.marker, x.now);
      RunResult(step.next, prior.handovers + Completed(step.done, x.now))
  }

  /** The state at power-on satisfies the invariant, and the timeout check
      has nothing to hand over until a marker byte arrives. */
  lemma PowerOnIsIdle(now: Millis, timeout: Millis)
    ensures Inv(PowerOn) && !PowerOn.reading
    ensures Flush(PowerOn, now, timeout) == StepResult(PowerOn, None)
  {
  }

  // ---------------------------------------------------------------------
  // One byte

  /** A marker byte hands over the open frame (if any) and starts a new
      frame that holds just the marker byte. */
  lemma MarkerStartsFrame(st: AsmState, b: Byte, now: Millis)
    ensures Step(st, b, true, now).done == (if st.reading then Some(st.frame) else None)
    ensures Step(st, b, true, now).next == AsmState([b], true, now)
  {
  }

  /** Without an open frame, an unmarked byte is discarded: only the time of
      the last byte changes. */
  lemma IdleByteDiscarded(st: AsmState, b: Byte, now: Millis)
    requires !st.reading
    ensures Step(st, b, false, now) == StepResult(st.(lastByteTime := now), None)
  {
  }

  /** An unmarked byte never touches the bytes already stored: it is
      appended while there is room and dropped once the buffer is full. */
  lemma UnmarkedByteAppends(st: AsmState, b: Byte, now: Millis)
    requires Inv(st) && st.reading
    ensures st.frame <= Step(st, b, false, now).next.frame
    ensures |st.frame| < BufferSize ==> Step(st, b, false, now).next.frame == st.frame + [b]
    ensures |st.frame| == BufferSize ==> Step(st, b, false, now).next.frame == st.frame
  {
  }

  // ---------------------------------------------------------------------
  // The timeout check

  lemma FlushIdleIsNoop(st: AsmState, now: Millis, timeout: Millis)
    requires !st.reading
    ensures Flush(st, now, timeout) == StepResult(st, None)
  {
  }

  /** A timeout hands over the open frame once: the assembler is left idle
      and empty, so no later check hands over anything until a marker
      arrives. */
  lemma FlushHandsOverOnce(st: AsmState, now: Millis, timeout: Millis, later: Millis, timeout': Millis)
    requires Inv(st) && st.reading && Elapsed(now, st.lastByteTime) > timeout
    ensures Flush(st, now, timeout).done == Some(st.frame)
    ensures Flush(st, now, timeout).next == AsmState([], false, st.lastByteTime)
    ensures Flush(Flush(st, now, timeout).next, later, timeout').done == None
  {
  }

  /** A frame that has not been silent for longer than the timeout stays open. */
  lemma FlushWaits(st: AsmState, now: Millis, timeout: Millis)
    requires Elapsed(now, st.lastByteTime) <= timeout
    ensures Flush(st, now, timeout) == StepResult(st, None)
  {
  }

  // ---------------------------------------------------------------------
  // Streams of bytes

  lemma RunLast(st: AsmState, s: seq<Sample>, x: Sample)
    ensures Run(st, s + [x]).state == Step(Run(st, s).state, x.b, x.marker, x.now).next
    ensures Run(st, s + [x]).handovers
         == Run(st, s).handovers + Completed(Step(Run(st, s).state, x.b, x.marker, x.now).done, x.now)
  {
    assert (s + [x])[..|s|] == s;
  }

  lemma {:induction false} RunKeepsInv(st: AsmState, s: seq<Sample>)
    requires Inv(st)
    ensures Inv(Run(st, s).state)
    ensures forall j :: 0 <= j < |Run(st, s).handovers| ==> 1 <= |Run(st, s).handovers[j].frame| <= BufferSize
    decreases |s|
  {
    if s != [] {
      RunKeepsInv(st, s[..|s| - 1]);
    }
  }

  /** Running two stretches one after the other is running their
      concatenation. */
  lemma {:induction false} RunAppend(st: AsmState, a: seq<Sample>, b: seq<Sample>)
    ensures Run(st, a + b).state == Run(Run(st, a).state, b).state
    ensures Run(st, a + b).handovers == Run(st, a).handovers + Run(Run(st, a).state, b).handovers
    decreases |b|
  {
    if b == [] {
      assert a + b == a;
    } else {
      var b' := b[..|b| - 1];
      var x := b[|b| - 1];
      assert b == b' + [x];
      assert a + b == (a + b') + [x];
      RunAppend(st, a, b');
      RunLast(st, a + b', x);
      RunLast(Run(st, a).state, b', x);
      var mid := Run(st, a).state;
      var d := Step(Run(st, a + b').state, x.b, x.marker, x.now).done;
      assert Run(st, a).handovers + Run(mid, b').handovers + Completed(d, x.now)
          == Run(st, a).handovers + (Run(mid, b').handovers + Completed(d, x.now));
    }
  }

  /** A stream without a marker never completes a frame. */
  lemma {:induction false} NoMarkerNoFrames(st: AsmState, s: seq<Sample>)
    requires NoMarker(s)
    ensures Run(st, s).handovers == []
    decreases |s|
  {
    if s != [] {
      NoMarkerNoFrames(st, s[..|s| - 1]);
    }
  }

  /** Unmarked bytes leave an idle assembler idle and extend an open frame
      up to the buffer's capacity. */
  lemma {:induction false} UnmarkedRun(st: AsmState, s: seq<Sample>)
    requires Inv(st) && NoMarker(s)
    ensures Run(st, s).handovers == []
    ensures Run(st, s).state.reading == st.reading
    ensures Run(st, s).state.frame == if st.reading then Cap(st.frame + Bytes(s)) else st.frame
    decreases |s|
  {
    if s != [] {
      var s' := s[..|s| - 1];
      var x := s[|s| - 1];
      UnmarkedRun(st, s');
      RunKeepsInv(st, s');
      if st.reading {
        assert Bytes(s) == Bytes(s') + [x.b];
        assert st.frame + Bytes(s) == (st.frame + Bytes(s')) + [x.b];
        CapExtend(st.frame + Bytes(s'), x.b);
      }
    }
  }

  /** One more byte extends the kept prefix while it is below capacity, and
      is dropped once the prefix is full. */
  lemma CapExtend(x: seq<Byte>, b: Byte)
    ensures Cap(x + [b]) == if |Cap(x)| < BufferSize then Cap(x) + [b] else Cap(x)
  {
    if |x| >= BufferSize {
      assert (x + [b])[..BufferSize] == x[..BufferSize];
    }
  }

  /** With two markers in a stream that starts idle, exactly one frame is
      completed: the first marker byte followed by the bytes up to the
      second marker, cut at the buffer's capacity. The second marker byte
      opens the next frame. */
  lemma TwoMarkersOneFrame(st: AsmState, pre: seq<Sample>, m1: Sample, mid: seq<Sample>, m2: Sample)
    requires Inv(st) && !st.reading
    requires NoMarker(pre) && NoMarker(mid) && m1.marker && m2.marker
    ensures Run(st, pre + [m1] + mid + [m2]).handovers == [Handover(Cap([m1.b] + Bytes(mid)), m2.now)]
    ensures Run(st, pre + [m1] + mid + [m2]).state.frame == [m2.b]
  {
    UnmarkedRun(st, pre);
    RunLast(st, pre, m1);
    var started := Run(st, pre + [m1]).state;
    assert started == AsmState([m1.b], true, m1.now);
    RunAppend(st, pre + [m1], mid);
    UnmarkedRun(started, mid);
    RunLast(st, pre + [m1] + mid, m2);
  }

  /** A marker followed by unmarked bytes and then silence: the timeout
      check hands over exactly the bytes received, once. */
  lemma SilenceCompletesFrame(st: AsmState, m1: Sample, mid: seq<Sample>, now: Millis, timeout: Millis)
    requires Inv(st) && m1.marker && NoMarker(mid)
    requires Elapsed(now, Run(st, [m1] + mid).state.lastByteTime) > timeout
    ensures Flush(Run(st, [m1] + mid).state, now, timeout).done == Some(Cap([m1.b] + Bytes(mid)))
    ensures !Flush(Run(st, [m1] + mid).state, now, timeout).next.reading
  {
    RunLast(st, [], m1);
    assert [] + [m1] == [m1];
    var started := Run(st, [m1]).state;
    assert started.frame == [m1.b] && started.reading;
    RunAppend(st, [m1], mid);
    UnmarkedRun(started, mid);
  }

  // ---------------------------------------------------------------------
  // The assembler over its fixed buffer

  class FrameAssembler {
    var buffer: array<Byte>
    var packetSize: nat
    var readingPacket: bool
    var lastByteTime: Millis

    ghost predicate Valid()
      reads this
    {
      && buffer.Length == BufferSize
      && packetSize <= BufferSize
      && (readingPacket <==> packetSize >= 1)
    }

    /** The abstract state: the filled part of the buffer and the flags. */
    ghost function State(): AsmState
      reads this, buffer
      requires Valid()
    {
      AsmState(buffer[..packetSize], readingPacket, lastByteTime)
    }

    constructor ()
      ensures Valid() && fresh(buffer)
      ensures State() == PowerOn
    {
      buffer := new Byte[BufferSize];
      packetSize := 0;
      readingPacket := false;
      lastByteTime := 0;
    }

    /** The body of the byte loop for one byte. */
    method Feed(b: Byte, marker: bool, now: Millis) returns (done: Option<Frame>)
      requires Valid()
      modifies this, buffer
      ensures Valid() && buffer == old(buffer)
      ensures StepResult(State(), done) == Step(old(State()), b, marker, now)
      ensures !marker ==> forall k :: 0 <= k < old(packetSize) ==> buffer[k] == old(buffer[k])
    {
      lastByteTime := now;
      done := None;
      if marker {
        if readingPacket {
          done := Some(buffer[..packetSize]);
        }
        readingPacket := true;
        packetSize := 0;
      }
      if readingPacket && packetSize < buffer.Length {
        buffer[packetSize] := b;
        packetSize := packetSize + 1;
      }
    }

    /** The inactivity check after the byte loop. */
    method CheckTimeout(now: Millis, timeout: Millis) returns (done: Option<Frame>)
      requires Valid()
      modifies this
      ensures Valid() && buffer == old(buffer) && buffer[..] == old(buffer[..])
      ensures StepResult(State(), done) == Flush(old(State()), now, timeout)
    {
      done := None;
      if readingPacket && Elapsed(now, lastByteTime) > timeout {
        done := Some(buffer[..packetSize]);
        packetSize := 0;
        readingPacket := false;
      }
    }
  }
}
