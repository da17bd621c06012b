/** Value types shared by every part of the bridge model: bus bytes, frames,
    readings of the wrapping millisecond clock, and an Option type. */
module BusTypes {

  datatype Option<T> = None | Some(value: T)

  /** An unsigned 8-bit value as it comes off the bus (`uint8_t`). */
  type Byte = b: int | 0 <= b < 256

  /** The bytes of one frame, in arrival order. */
  type Frame = seq<Byte>

  /** One byte read from the bus: its value, whether the 9th (parity
      position) bit marked it as the start of a transmission, and the
      clock reading taken when it was read. */
  datatype Sample = Sample(b: Byte, marker: bool, now: Millis)

  const ClockModulus: int := 0x1_0000_0000

  /** A reading of the 32-bit millisecond counter (`unsigned long`), which
      wraps around to 0 after 2^32 - 1. */
  type Millis = t: int | 0 <= t < 0x1_0000_0000

  /** The unsigned (wrap-around) subtraction `now - since` of two clock
      readings. */
  function Elapsed(now: Millis, since: Millis): (d: Millis)
    ensures now >= since ==> d == now - since
    ensures now < since ==> d == ClockModulus - (since - now)
  {
    (now - since) % ClockModulus
  }

  /** The clock reading seen at absolute time `t` milliseconds. */
  function ClockAt(t: nat): Millis
  {
    t % ClockModulus
  }

  /** Wrap-safety: however often the counter has wrapped, the unsigned
      difference of two readings taken less than 2^32 ms apart is the true
      elapsed time. */
  lemma ElapsedIsWrapSafe(t0: nat, t1: nat)
    requires t0 <= t1 < t0 + ClockModulus
    ensures Elapsed(ClockAt(t1), ClockAt(t0)) == t1 - t0
  {
    var q0, q1 := t0 / ClockModulus, t1 / ClockModulus;
    assert t0 == q0 * ClockModulus + ClockAt(t0);
    assert t1 == q1 * ClockModulus + ClockAt(t1);
    if ClockAt(t1) >= ClockAt(t0) {
      assert q1 == q0;
    } else {
      assert q1 == q0 + 1;
    }
  }

  /** The `int8_t` reading of a byte: two's complement reinterpretation. */
  function Signed(b: Byte): (v: int)
    ensures -128 <= v < 128
    ensures v % 256 == b
  {
    if b < 128 then b else b - 256
  }
}
