/** The bus part of the bridge's main loop: drain the available bytes into
    the frame assembler, decode every frame it completes (feeding the energy
    integrator on the way), then run the inactivity check.

    `ProcessFrame`, `Drain` and `Cycle` are the meaning of this on abstract
    states; `ProcessPacket` and `ServiceBus` are the same over the
    `FrameAssembler` and `Integrator` objects and are proved to follow them. */
module Bridge {
  import opened BusTypes
  import opened Assembly
  import opened Integration
  import opened Decoder

  /** The integrator after a frame, and the records the frame produced. */
  datatype Handled = Handled(acc: Accumulator, outputs: seq<Output>)

  /** `processPacket`: a frame that carries a power sample updates the
      integrator (at clock reading `now`) and publishes the new total; every
      other frame leaves it alone. */
  function ProcessFrame(acc: Accumulator, f: Frame, now: Millis): (r: Handled)
    ensures PowerOf(f).None? ==> r.acc == acc
    ensures PowerOf(f).Some? ==> r.acc.lastValue == PowerOf(f).value && r.acc.lastT == now
    ensures PowerOf(f).Some? ==> r.acc == Accumulate(acc, PowerOf(f).value, now)
    ensures r.outputs == Decode(f, r.acc.result)
  {
    match PowerOf(f)
    case None => Handled(acc, Decode(f, acc.result))
    case Some(p) =>
      var next := Accumulate(acc, p, now);
      Handled(next, Decode(f, next.result))
  }

  /** `processPacket` on each handed-over frame in turn, oldest first, at the
      clock reading at which it was completed. */
  function ProcessAll(acc: Accumulator, hs: seq<Handover>): (r: Handled)
    ensures (forall j :: 0 <= j < |hs| ==> PowerOf(hs[j].frame).None?) ==> r.acc == acc
    decreases |hs|
  {
    if hs == [] then Handled(acc, [])
    else
      var prior := ProcessAll(acc, hs[..|hs| - 1]);
      var last := hs[|hs| - 1];
      var h := ProcessFrame(prior.acc, last.frame, last.at);
      Handled(h.acc, prior.outputs + h.outputs)
  }

  datatype BridgeState = BridgeState(asm: AsmState, acc: Accumulator)

  datatype Emitted = Emitted(state: BridgeState, outputs: seq<Output>)

  /** The records of a frame completed by the assembler, if any. */
  function Complete(bs: BridgeState, next: AsmState, done: Option<Frame>, now: Millis): Emitted
  {
    match done
    case None => Emitted(BridgeState(next, bs.acc), [])
    case Some(f) =>
      var h := ProcessFrame(bs.acc, f, now);
      Emitted(BridgeState(next, h.acc), h.outputs)
  }

  /** The byte loop over the samples available, oldest first. */
  function Drain(bs: BridgeState, s: seq<Sample>): (e: Emitted)
    ensures Inv(bs.asm) ==> Inv(e.state.asm)
    ensures NoMarker(s) ==> e.state.acc == bs.acc && e.outputs == []
    decreases |s|
  {
    if s == [] then Emitted(bs, [])
    else
      var prior := Drain(bs, s[..|s| - 1]);
      var x := s[|s| - 1];
      var step := Step(prior.state.asm, x.b, x.marker, x.now);
      var e := Complete(prior.state, step.next, step.done, x.now);
      Emitted(e.state, prior.outputs + e.outputs)
  }

  /** The inactivity check at clock reading `now`. */
  function Poll(bs: BridgeState, now: Millis, timeout: Millis): (e: Emitted)
    ensures Inv(bs.asm) ==> Inv(e.state.asm)
    ensures !bs.asm.reading || Elapsed(now, bs.asm.lastByteTime) <= timeout ==> e == Emitted(bs, [])
    ensures bs.asm.reading && Elapsed(now, bs.asm.lastByteTime) > timeout ==>
      !e.state.asm.reading && Handled(e.state.acc, e.outputs) == ProcessFrame(bs.acc, bs.asm.frame, now)
  {
    var flush := Flush(bs.asm, now, timeout);
    Complete(bs, flush.next, flush.done, now)
  }

  /** One pass of the bus part of the main loop. */
  function Cycle(bs: BridgeState, s: seq<Sample>, now: Millis, timeout: Millis): (e: Emitted)
    ensures Inv(bs.asm) ==> Inv(e.state.asm)
    ensures e.state.asm == Flush(Run(bs.asm, s).state, now, timeout).next
  {
    DrainFollowsRun(bs, s);
    var drained := Drain(bs, s);
    var polled := Poll(drained.state, now, timeout);
    Emitted(polled.state, drained.outputs + polled.outputs)
  }

  // ---------------------------------------------------------------------
  // Properties of the pipeline

  /** The byte loop is `Run` followed by `processPacket` on each frame it
      completes, in order, at the clock reading of the completing byte. */
  lemma {:induction false} DrainFollowsRun(bs: BridgeState, s: seq<Sample>)
    ensures Drain(bs, s).state.asm == Run(bs.asm, s).state
    ensures var run := Run(bs.asm, s);
      Handled(Drain(bs, s).state.acc, Drain(bs, s).outputs) == ProcessAll(bs.acc, run.handovers)
    decreases |s|
  {
    if s != [] {
      var s' := s[..|s| - 1];
      var x := s[|s| - 1];
      DrainFollowsRun(bs, s');
      var prior := Run(bs.asm, s');
      var step := Step(prior.state, x.b, x.marker, x.now);
      if step.done.Some? {
        var hs := prior.handovers + Completed(step.done, x.now);
        assert hs[..|hs| - 1] == prior.handovers;
      } else {
        assert prior.handovers + [] == prior.handovers;
      }
    }
  }

  /** Without a marker on the bus nothing is emitted and the integrator is
      untouched. */
  lemma {:induction false} QuietWithoutMarkers(bs: BridgeState, s: seq<Sample>)
    requires NoMarker(s)
    ensures Drain(bs, s).outputs == []
    ensures Drain(bs, s).state.acc == bs.acc
    decreases |s|
  {
    if s != [] {
      QuietWithoutMarkers(bs, s[..|s| - 1]);
    }
  }

  /** Two marker bytes in a row on an idle bus: the first one's one-byte
      frame is handed to the decoder, which emits nothing for it. */
  lemma BackToBackMarkers(bs: BridgeState, m1: Sample, m2: Sample)
    requires !bs.asm.reading && m1.marker && m2.marker
    ensures Drain(bs, [m1, m2]).outputs == []
    ensures Drain(bs, [m1, m2]).state.asm.frame == [m2.b]
    ensures Drain(bs, [m1, m2]).state.acc == bs.acc
  {
    assert [m1, m2][..1] == [m1];
    assert [m1][..0] == [];
    var step := Step(bs.asm, m1.b, m1.marker, m1.now);
    assert step == StepResult(AsmState([m1.b], true, m1.now), None);
    assert Drain(bs, [m1][..0]) == Emitted(bs, []);
    assert Drain(bs, [m1]) == Emitted(BridgeState(step.next, bs.acc), []);
    var first := Drain(bs, [m1]);
    var second := Step(first.state.asm, m2.b, m2.marker, m2.now);
    assert second == StepResult(AsmState([m2.b], true, m2.now), Some([m1.b]));
    assert Drain(bs, [m1, m2]) == Emitted(Complete(first.state, second.next, second.done, m2.now).state,
                                          Complete(first.state, second.next, second.done, m2.now).outputs);
    ShortFrameIsSilent([m1.b], bs.acc.result);
  }

  /** The energy published for a power frame is the integrator's new total
      divided by 3600. */
  lemma EnergyPublished(acc: Accumulator, f: Frame, now: Millis)
    requires PowerOf(f).Some?
    ensures ProcessFrame(acc, f, now).outputs[4]
         == Publish(EnergyTotal, FloatText(Accumulate(acc, PowerOf(f).value, now).result / 3600.0))
  {
    var next := Accumulate(acc, PowerOf(f).value, now);
    PowerBlock(f, next.result);
  }

  /** 50 percent of the rated power seen at t = 0 and again an hour later:
      the second frame publishes 10.8 as its energy. */
  lemma HourAtHalfPower(f: Frame)
    requires IsTypeA(f) && f[IndexOffset] == 7 && f[25] == 50
    ensures var h := ProcessFrame(ProcessFrame(Initial, f, 0).acc, f, 3600000);
      h.outputs[4] == Publish(EnergyTotal, FloatText(10.8))
  {
    PowerExample(f);
    var a1 := ProcessFrame(Initial, f, 0).acc;
    assert a1 == Accumulate(Initial, 10.8, 0);
    var a2 := Accumulate(a1, 10.8, 3600000);
    assert a2.result == 0.5 * (10.8 + 10.8) * 3600.0;
    EnergyPublished(a1, f, 3600000);
  }

  // ---------------------------------------------------------------------
  // The loop over the assembler and integrator objects

  /** `processPacket` with the integrator object. */
  method ProcessPacket(integ: Integrator, f: Frame, now: Millis) returns (outs: seq<Output>)
    modifies integ
    ensures Handled(integ.State(), outs) == ProcessFrame(old(integ.State()), f, now)
  {
    var energy := integ.result;
    var power := PowerOf(f);
    if power.Some? {
      energy := integ.Update(power.value, now);
    }
    outs := Decode(f, energy);
  }

  /** Hands a completed frame, if any, to `ProcessPacket`. */
  method HandOver(integ: Integrator, done: Option<Frame>, now: Millis) returns (outs: seq<Output>)
    modifies integ
    ensures done.None? ==> outs == [] && integ.State() == old(integ.State())
    ensures done.Some? ==> Handled(integ.State(), outs) == ProcessFrame(old(integ.State()), done.value, now)
  {
    outs := [];
    if done.Some? {
      outs := ProcessPacket(integ, done.value, now);
    }
  }

  /** One pass of the byte loop's body: `Feed`, then `processPacket` on the
      frame it completes, if any. */
  method ServiceSample(asm: FrameAssembler, integ: Integrator, x: Sample) returns (more: seq<Output>)
    requires asm.Valid()
    modifies asm, asm.buffer, integ
    ensures asm.Valid() && asm.buffer == old(asm.buffer)
    ensures var step := Step(old(asm.State()), x.b, x.marker, x.now);
      Emitted(BridgeState(asm.State(), integ.State()), more)
      == Complete(BridgeState(old(asm.State()), old(integ.State())), step.next, step.done, x.now)
  {
    var done := asm.Feed(x.b, x.marker, x.now);
    more := HandOver(integ, done, x.now);
  }

  /** The inactivity check of `loop()`, with `processPacket` on the frame it
      completes, if any. */
  method ServiceTimeout(asm: FrameAssembler, integ: Integrator, now: Millis, timeout: Millis)
    returns (more: seq<Output>)
    requires asm.Valid()
    modifies asm, integ
    ensures asm.Valid() && asm.buffer == old(asm.buffer)
    ensures Emitted(BridgeState(asm.State(), integ.State()), more)
         == Poll(BridgeState(old(asm.State()), old(integ.State())), now, timeout)
  {
    var done := asm.CheckTimeout(now, timeout);
    more := HandOver(integ, done, now);
  }

  /** The bus part of `loop()`: every available sample through `Feed`, each
      completed frame through `ProcessPacket`, then `CheckTimeout`. */
  method ServiceBus(asm: FrameAssembler, integ: Integrator, samples: seq<Sample>, now: Millis, timeout: Millis)
    returns (outs: seq<Output>)
    requires asm.Valid()
    modifies asm, asm.buffer, integ
    ensures asm.Valid() && asm.buffer == old(asm.buffer)
    ensures Emitted(BridgeState(asm.State(), integ.State()), outs)
         == Cycle(BridgeState(old(asm.State()), old(integ.State())), samples, now, timeout)
  {
    ghost var start := BridgeState(asm.State(), integ.State());
    outs := [];
    var i := 0;
    while i < |samples|
      invariant 0 <= i <= |samples|
      invariant asm.Valid() && asm.buffer == old(asm.buffer)
      invariant Emitted(BridgeState(asm.State(), integ.State()), outs) == Drain(start, samples[..i])
    {
      var more := ServiceSample(asm, integ, samples[i]);
      outs := outs + more;
      assert samples[..i + 1][..i] == samples[..i];
      i := i + 1;
    }
    assert samples[..i] == samples;
    var more := ServiceTimeout(asm, integ, now, timeout);
    outs := outs + more;
  }
}
