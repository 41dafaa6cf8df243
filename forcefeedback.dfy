/** force_feedback_linux.go and ff_types.go: uploading, playing and erasing rumble
    effects on an evdev device, and its force-feedback gain and autocenter. */
module ForceFeedback {
  import opened Types
  import opened Abi
  import Xpad
  import Evdev

  /** FFNewEffect: the effect id that asks the kernel for a new slot. */
  const FFNewEffect: int16 := -1

  /** A `time.Duration`: nanoseconds in an int64. */
  type Duration = int64

  const Millisecond: nat := 1_000_000

  /** RumbleEffect. */
  datatype RumbleEffect = RumbleEffect(id: int16, strong: uint16, weak: uint16, length: Duration, delay: Duration)

  /** NewRumbleEffect: a rumble effect in a new slot, without delay. */
  function NewRumbleEffect(strong: uint16, weak: uint16, length: Duration): (e: RumbleEffect)
    ensures e.id == FFNewEffect && e.delay == 0
    ensures e.strong == strong && e.weak == weak && e.length == length
  {
    RumbleEffect(FFNewEffect, strong, weak, length, 0)
  }

  /** durationToMillis: whole milliseconds, none for a duration that is not positive,
      and at most 0xffff. */
  function DurationToMillis(d: Duration): (ms: uint16)
    ensures ms == 0 <==> d < Millisecond as int
    ensures ms == 0xffff <==> d >= 0xffff * Millisecond
    ensures 0 < d && ms < 0xffff ==> ms * Millisecond <= d < (ms + 1) * Millisecond
  {
    if d <= 0 then 0
    else
      var ms := d / Millisecond as int;
      if ms > 0xffff then 0xffff else ms
  }

  /** A longer duration never gives fewer milliseconds. */
  lemma DurationToMillisMonotone(d: Duration, e: Duration)
    requires d <= e
    ensures DurationToMillis(d) <= DurationToMillis(e)
  {
  }

  /** The cases of the unit test: 0, -1ms, 42ms and 65536ms. */
  lemma DurationToMillisValues()
    ensures DurationToMillis(0) == 0
    ensures DurationToMillis(-1 * Millisecond) == 0
    ensures DurationToMillis(42 * Millisecond) == 42
    ensures DurationToMillis(0x1_0000 * Millisecond) == 0xffff
  {
  }

  /** `uint16(id)`: the two's-complement reinterpretation of an effect id. */
  function EffectCode(id: int16): (c: uint16)
    ensures Signed(c, 2) == id
    ensures id >= 0 ==> c == id
  {
    if id < 0 then id + 0x1_0000 else id
  }

  /** The ff_effect UploadRumble hands to the kernel: a rumble effect with the
      requested id, no direction or trigger, the replay times in milliseconds and the
      two magnitudes. */
  function Descriptor(e: RumbleEffect): (ff: FFEffect)
    ensures ff.typ == FFRumble && ff.id == e.id && ff.direction == 0
    ensures ff.triggerButton == 0 && ff.triggerInterval == 0
    ensures ff.replayLength == DurationToMillis(e.length) && ff.replayDelay == DurationToMillis(e.delay)
    ensures ff.strongMagnitude == e.strong && ff.weakMagnitude == e.weak
  {
    FFEffect(FFRumble, e.id, 0, 0, 0, DurationToMillis(e.length), DurationToMillis(e.delay), e.strong, e.weak)
  }

  /** UploadRumble. `reply` is the kernel's answer to EVIOCSFF: the id it leaves in
      the descriptor (a new slot's id for FFNewEffect), or an error. */
  method UploadRumble(d: Xpad.Device?, effect: RumbleEffect, reply: Reply<int16>)
    returns (id: int16, err: MaybeError, calls: seq<Syscall>)
    ensures !Xpad.IsOpen(d) ==> id == 0 && err == Some(ErrClosed) && calls == []
    ensures Xpad.IsOpen(d) && d.readOnly ==> id == 0 && err == Some(ErrReadOnly) && calls == []
    ensures Xpad.IsOpen(d) && !d.readOnly ==>
      calls == [Ioctl(Xpad.Fd(d), Evdev.EvioCSFF(), Effect(Descriptor(effect)))]
      && (reply.Fails? ==> id == 0 && err == Some(Sys(reply.errno)))
      && (reply.Gives? ==> id == reply.value && err == None)
  {
    if !Xpad.IsOpen(d) {
      return 0, Some(ErrClosed), [];
    }
    if d.readOnly {
      return 0, Some(ErrReadOnly), [];
    }
    var fd := Xpad.Fd(d);
    var ff := FFEffect(FFRumble, effect.id, 0, 0, 0,
                       DurationToMillis(effect.length), DurationToMillis(effect.delay),
                       effect.strong, effect.weak);
    calls := [Ioctl(fd, Evdev.EvioCSFF(), Effect(ff))];
    match reply {
      case Fails(e) => id, err := 0, Some(Sys(e));
      case Gives(slot) => id, err := slot, None;
    }
  }

  /** EraseEffect: EVIOCRMFF with the id widened to int32. */
  method EraseEffect(d: Xpad.Device?, id: int16, reply: Option<Errno>) returns (err: MaybeError, calls: seq<Syscall>)
    ensures !Xpad.IsOpen(d) ==> err == Some(ErrClosed) && calls == []
    ensures Xpad.IsOpen(d) && d.readOnly ==> err == Some(ErrReadOnly) && calls == []
    ensures Xpad.IsOpen(d) && !d.readOnly ==>
      calls == [Ioctl(Xpad.Fd(d), Evdev.EvioCRMFF(), Int32Value(id))]
      && err == (if reply.Some? then Some(Sys(reply.value)) else None)
  {
    if !Xpad.IsOpen(d) {
      return Some(ErrClosed), [];
    }
    if d.readOnly {
      return Some(ErrReadOnly), [];
    }
    var value: int32 := id;
    calls := [Ioctl(Xpad.Fd(d), Evdev.EvioCRMFF(), Int32Value(value))];
    err := if reply.Some? then Some(Sys(reply.value)) else None;
  }

  /** An EV_FF event without a timestamp. */
  function FFEvent(code: uint16, value: int32): (ev: Xpad.Event)
    ensures ev.when.Zero? && ev.kind == EVFF && ev.code == code && ev.value == value
  {
    Xpad.Event(Xpad.Zero, EVFF, code, value)
  }

  /** The record an EV_FF event puts on the wire carries the clock reading, EV_FF,
      the code and the value. */
  lemma FFEventOnWire(code: uint16, value: int32, now: Timeval)
    ensures DecodeInputEvent(EncodeInputEvent(Evdev.RecordOf(FFEvent(code, value), now)))
      == InputEventRecord(now, EVFF, code, value)
  {
    DecodeEncodeInputEvent(Evdev.RecordOf(FFEvent(code, value), now));
  }

  /** PlayEffect: an EV_FF event whose code is the effect id and whose value is the
      repeat count; `repeat` 0 stops the effect. */
  method PlayEffect(d: Xpad.Device?, id: int16, repeat: int32, now: Timeval, writeErr: MaybeError)
    returns (err: MaybeError, calls: seq<Syscall>)
    ensures Evdev.WriteOutcome(d, FFEvent(EffectCode(id), repeat), now, writeErr, err, calls)
  {
    if !Xpad.IsOpen(d) {
      return Some(ErrClosed), [];
    }
    err, calls := Evdev.WriteInputEvent(d, FFEvent(EffectCode(id), repeat), now, writeErr);
  }

  /** StopEffect: PlayEffect with a repeat count of 0. */
  method StopEffect(d: Xpad.Device?, id: int16, now: Timeval, writeErr: MaybeError)
    returns (err: MaybeError, calls: seq<Syscall>)
    ensures Evdev.WriteOutcome(d, FFEvent(EffectCode(id), 0), now, writeErr, err, calls)
  {
    err, calls := PlayEffect(d, id, 0, now, writeErr);
  }

  /** SetGain: an EV_FF event with code FF_GAIN and the gain as its value. */
  method SetGain(d: Xpad.Device?, value: uint16, now: Timeval, writeErr: MaybeError)
    returns (err: MaybeError, calls: seq<Syscall>)
    ensures Evdev.WriteOutcome(d, FFEvent(FFGain, value), now, writeErr, err, calls)
  {
    if !Xpad.IsOpen(d) {
      return Some(ErrClosed), [];
    }
    err, calls := Evdev.WriteInputEvent(d, FFEvent(FFGain, value), now, writeErr);
  }

  /** SetAutocenter: an EV_FF event with code FF_AUTOCENTER. */
  method SetAutocenter(d: Xpad.Device?, value: uint16, now: Timeval, writeErr: MaybeError)
    returns (err: MaybeError, calls: seq<Syscall>)
    ensures Evdev.WriteOutcome(d, FFEvent(FFAutocenter, value), now, writeErr, err, calls)
  {
    if !Xpad.IsOpen(d) {
      return Some(ErrClosed), [];
    }
    err, calls := Evdev.WriteInputEvent(d, FFEvent(FFAutocenter, value), now, writeErr);
  }

  /** Rumble: upload a new rumble effect, then play it once. A failed upload issues
      nothing more; a failed play reports its error and leaves the uploaded effect in
      place, and in both cases the id returned is 0. */
  method Rumble(d: Xpad.Device?, strong: uint16, weak: uint16, length: Duration,
                uploadReply: Reply<int16>, now: Timeval, writeErr: MaybeError)
    returns (id: int16, err: MaybeError, calls: seq<Syscall>)
    ensures !Xpad.IsOpen(d) ==> id == 0 && err == Some(ErrClosed) && calls == []
    ensures Xpad.IsOpen(d) && d.readOnly ==> id == 0 && err == Some(ErrReadOnly) && calls == []
    ensures Xpad.IsOpen(d) && !d.readOnly && uploadReply.Fails? ==>
      id == 0 && err == Some(Sys(uploadReply.errno))
      && calls == [Ioctl(Xpad.Fd(d), Evdev.EvioCSFF(), Effect(Descriptor(NewRumbleEffect(strong, weak, length))))]
    ensures Xpad.IsOpen(d) && !d.readOnly && uploadReply.Gives? ==>
      calls == [Ioctl(Xpad.Fd(d), Evdev.EvioCSFF(), Effect(Descriptor(NewRumbleEffect(strong, weak, length)))),
                Write(Xpad.Fd(d), EncodeInputEvent(Evdev.RecordOf(FFEvent(EffectCode(uploadReply.value), 1), now)))]
      && err == writeErr
      && id == (if writeErr.Some? then 0 else uploadReply.value)
  {
    var uploadCalls, playCalls;
    id, err, uploadCalls := UploadRumble(d, NewRumbleEffect(strong, weak, length), uploadReply);
    if err.Some? {
      return 0, err, uploadCalls;
    }
    err, playCalls := PlayEffect(d, id, 1, now, writeErr);
    calls := uploadCalls + playCalls;
    if err.Some? {
      id := 0;
    }
  }

  /** The rumble a successful Rumble plays is the requested one: a new slot, the
      magnitudes as given, the length in milliseconds and no delay. */
  lemma RumbleDescriptor(strong: uint16, weak: uint16, length: Duration)
    ensures Descriptor(NewRumbleEffect(strong, weak, length))
      == FFEffect(FFRumble, -1, 0, 0, 0, DurationToMillis(length), 0, strong, weak)
  {
  }
}
