/** The kernel ABI the library speaks: the constants of evdev_types.go and
    joystick_types.go, the structures it passes to ioctls, the little-endian byte
    layout of the `input_event` and `js_event` records (linux/amd64), and the record
    of the system calls an operation issues. */
module Abi {
  import opened Types
  import opened Ioctl

  // Event types (EV_*), evdev_types.go.
  const EVSyn: uint16 := 0x00
  const EVKey: uint16 := 0x01
  const EVRel: uint16 := 0x02
  const EVAbs: uint16 := 0x03
  const EVMsc: uint16 := 0x04
  const EVSw: uint16 := 0x05
  const EVLed: uint16 := 0x11
  const EVSnd: uint16 := 0x12
  const EVRep: uint16 := 0x14
  const EVFF: uint16 := 0x15
  const EVPwr: uint16 := 0x16
  const EVFFStatus: uint16 := 0x17

  // Maximum codes per category.
  const EVMax: uint16 := 0x1f
  const KeyMax: uint16 := 0x2ff
  const AbsMax: uint16 := 0x3f
  const AbsCnt: nat := AbsMax as nat + 1
  const FFMax: uint16 := 0x7f
  const LEDMax: uint16 := 0x0f
  const BtnMisc: uint16 := 0x100

  // Force feedback.
  const FFRumble: uint16 := 0x50
  const FFGain: uint16 := 0x60
  const FFAutocenter: uint16 := 0x61

  // Joystick event types and correction types, joystick_types.go.
  const JoyEventButton: uint8 := 0x01
  const JoyEventAxis: uint8 := 0x02
  const JoyEventInit: uint8 := 0x80
  const JoyCorrNone: uint16 := 0x00
  const JoyCorrBroken: uint16 := 0x01

  /** struct input_id. */
  datatype InputID = InputID(busType: uint16, vendor: uint16, product: uint16, version: uint16)

  /** struct input_absinfo. */
  datatype InputAbsInfo = InputAbsInfo(value: int32, minimum: int32, maximum: int32, fuzz: int32, flat: int32, resolution: int32)

  /** struct ff_effect restricted to the rumble member of its union: the magnitudes are
      explicit fields instead of an overlay on the periodic member. */
  datatype FFEffect = FFEffect(
    typ: uint16, id: int16, direction: uint16,
    triggerButton: uint16, triggerInterval: uint16,
    replayLength: uint16, replayDelay: uint16,
    strongMagnitude: uint16, weakMagnitude: uint16)

  /** struct js_corr: eight coefficients, a precision and a correction type. */
  datatype JsCorrection = JsCorrection(coef: seq<int32>, prec: int16, typ: uint16)

  /** struct timeval on linux/amd64. */
  datatype Timeval = Timeval(sec: int64, usec: int64)

  /** struct input_event. */
  datatype InputEventRecord = InputEventRecord(time: Timeval, typ: uint16, code: uint16, value: int32)

  /** struct js_event. */
  datatype JsEventRecord = JsEventRecord(time: uint32, value: int16, typ: uint8, number: uint8)

  // ---------------------------------------------------------------------------
  // Little-endian integers

  function Pow256(n: nat): (p: nat)
    ensures p >= 1
  {
    if n == 0 then 1 else 256 * Pow256(n - 1)
  }

  lemma Pow256Values()
    ensures Pow256(1) == 0x100 && Pow256(2) == 0x1_0000 && Pow256(4) == 0x1_0000_0000
    ensures Pow256(8) == 0x1_0000_0000_0000_0000
  {
    assert Pow256(1) == 0x100;
    assert Pow256(2) == 0x1_0000;
    assert Pow256(3) == 0x100_0000;
    assert Pow256(4) == 0x1_0000_0000;
    assert Pow256(5) == 0x100_0000_0000;
    assert Pow256(6) == 0x1_0000_0000_0000;
    assert Pow256(7) == 0x100_0000_0000_0000;
  }

  /** The `width` bytes of `n`, least significant first. */
  function LE(n: nat, width: nat): (s: seq<byte>)
    requires n < Pow256(width)
    ensures |s| == width
  {
    if width == 0 then [] else [n % 256] + LE(n / 256, width - 1)
  }

  /** The value of little-endian bytes. */
  function FromLE(s: seq<byte>): (n: nat)
    ensures n < Pow256(|s|)
  {
    if s == [] then 0 else s[0] + 256 * FromLE(s[1..])
  }

  lemma {:induction false} FromLEOfLE(n: nat, width: nat)
    requires n < Pow256(width)
    ensures FromLE(LE(n, width)) == n
  {
    if width > 0 {
      var s := LE(n, width);
      assert s[1..] == LE(n / 256, width - 1);
      FromLEOfLE(n / 256, width - 1);
    }
  }

  lemma {:induction false} LEOfFromLE(s: seq<byte>)
    ensures LE(FromLE(s), |s|) == s
  {
    if s != [] {
      LEOfFromLE(s[1..]);
      assert FromLE(s) % 256 == s[0];
      assert FromLE(s) / 256 == FromLE(s[1..]);
    }
  }

  /** Two's complement: the unsigned value with the same `width` bytes as `v`. */
  function Unsigned(v: int, width: nat): (u: nat)
    requires -(Pow256(width) as int) / 2 <= v < Pow256(width) / 2
    ensures u < Pow256(width)
  {
    if v < 0 then v + Pow256(width) else v
  }

  /** Two's complement: the signed value of `width` bytes holding `u`. */
  function Signed(u: nat, width: nat): (v: int)
    requires width > 0 && u < Pow256(width)
    ensures -(Pow256(width) as int) / 2 <= v < Pow256(width) / 2
  {
    if u >= Pow256(width) / 2 then u - Pow256(width) else u
  }

  lemma SignedUnsigned(v: int, width: nat)
    requires width > 0 && -(Pow256(width) as int) / 2 <= v < Pow256(width) / 2
    ensures Signed(Unsigned(v, width), width) == v
  {
  }

  lemma UnsignedSigned(u: nat, width: nat)
    requires width > 0 && u < Pow256(width)
    ensures Unsigned(Signed(u, width), width) == u
  {
  }

  // ---------------------------------------------------------------------------
  // Record layouts

  const InputEventSize: nat := 24
  const JsEventSize: nat := 8

  /** `binary.Write(LittleEndian, inputEvent)`: seconds, microseconds, type, code, value. */
  function EncodeInputEvent(r: InputEventRecord): (b: seq<byte>)
    ensures |b| == InputEventSize
  {
    Pow256Values();
    LE(Unsigned(r.time.sec, 8), 8) + LE(Unsigned(r.time.usec, 8), 8)
      + LE(r.typ, 2) + LE(r.code, 2) + LE(Unsigned(r.value, 4), 4)
  }

  /** `binary.Read(LittleEndian, &inputEvent)` on exactly one record. */
  function DecodeInputEvent(b: seq<byte>): (r: InputEventRecord)
    requires |b| == InputEventSize
  {
    Pow256Values();
    InputEventRecord(
      Timeval(Signed(FromLE(b[0..8]), 8), Signed(FromLE(b[8..16]), 8)),
      FromLE(b[16..18]), FromLE(b[18..20]), Signed(FromLE(b[20..24]), 4))
  }

  /** Every field written is read back: writeEvent and readEvent share one layout. */
  lemma DecodeEncodeInputEvent(r: InputEventRecord)
    ensures DecodeInputEvent(EncodeInputEvent(r)) == r
  {
    Pow256Values();
    var a := LE(Unsigned(r.time.sec, 8), 8);
    var b := LE(Unsigned(r.time.usec, 8), 8);
    var c := LE(r.typ, 2);
    var d := LE(r.code, 2);
    var e := LE(Unsigned(r.value, 4), 4);
    var s := EncodeInputEvent(r);
    assert s == a + b + c + d + e;
    assert s[0..8] == a && s[8..16] == b && s[16..18] == c && s[18..20] == d && s[20..24] == e;
    FromLEOfLE(Unsigned(r.time.sec, 8), 8);
    FromLEOfLE(Unsigned(r.time.usec, 8), 8);
    FromLEOfLE(r.typ, 2);
    FromLEOfLE(r.code, 2);
    FromLEOfLE(Unsigned(r.value, 4), 4);
  }

  /** Every 24-byte record decodes without loss. */
  lemma EncodeDecodeInputEvent(s: seq<byte>)
    requires |s| == InputEventSize
    ensures EncodeInputEvent(DecodeInputEvent(s)) == s
  {
    Pow256Values();
    LEOfFromLE(s[0..8]);
    LEOfFromLE(s[8..16]);
    LEOfFromLE(s[16..18]);
    LEOfFromLE(s[18..20]);
    LEOfFromLE(s[20..24]);
    assert s == s[0..8] + s[8..16] + s[16..18] + s[18..20] + s[20..24];
  }

  /** struct js_event as the kernel writes it: time, value, type, number. */
  function EncodeJsEvent(r: JsEventRecord): (b: seq<byte>)
    ensures |b| == JsEventSize
  {
    Pow256Values();
    LE(r.time, 4) + LE(Unsigned(r.value, 2), 2) + LE(r.typ, 1) + LE(r.number, 1)
  }

  /** `binary.Read(LittleEndian, &jsEvent)` on exactly one record. */
  function DecodeJsEvent(b: seq<byte>): (r: JsEventRecord)
    requires |b| == JsEventSize
  {
    Pow256Values();
    JsEventRecord(FromLE(b[0..4]), Signed(FromLE(b[4..6]), 2), FromLE(b[6..7]), FromLE(b[7..8]))
  }

  lemma DecodeEncodeJsEvent(r: JsEventRecord)
    ensures DecodeJsEvent(EncodeJsEvent(r)) == r
  {
    Pow256Values();
    var a := LE(r.time, 4);
    var b := LE(Unsigned(r.value, 2), 2);
    var c := LE(r.typ, 1);
    var d := LE(r.number, 1);
    var s := EncodeJsEvent(r);
    assert s == a + b + c + d;
    assert s[0..4] == a && s[4..6] == b && s[6..7] == c && s[7..8] == d;
    FromLEOfLE(r.time, 4);
    FromLEOfLE(Unsigned(r.value, 2), 2);
    FromLEOfLE(r.typ, 1);
    FromLEOfLE(r.number, 1);
  }

  lemma EncodeDecodeJsEvent(s: seq<byte>)
    requires |s| == JsEventSize
    ensures EncodeJsEvent(DecodeJsEvent(s)) == s
  {
    Pow256Values();
    LEOfFromLE(s[0..4]);
    LEOfFromLE(s[4..6]);
    LEOfFromLE(s[6..7]);
    LEOfFromLE(s[7..8]);
    assert s == s[0..4] + s[4..6] + s[6..7] + s[7..8];
  }

  // ---------------------------------------------------------------------------
  // System calls

  /** What an ioctl is handed: a buffer of the given length for the kernel to fill, a
      pointer to a structure the kernel fills, or a value the library passes in. */
  datatype IoctlArg =
    | Buffer(len: nat)
    | OutParam
    | Int32Value(v: int32)
    | Effect(effect: FFEffect)
    | AxisMapping(axes: seq<uint8>)
    | ButtonMapping(buttons: seq<uint16>)
    | CorrectionValue(corr: JsCorrection)

  /** A system call on a device's file descriptor. */
  datatype Syscall =
    | Ioctl(fd: nat, request: Word, arg: IoctlArg)
    | Write(fd: nat, data: seq<byte>)
    | Read(fd: nat, len: nat)

  /** The kernel's answer to an ioctl: what it stores through the pointer, or an
      error number. For a buffer, what it stores is the bytes it copies to the start
      of the buffer. */
  datatype Reply<T> = Gives(value: T) | Fails(errno: Errno)

  /** The error of a failed ioctl, or the value it left behind. */
  function Answer<T>(reply: Reply<T>): Result<T>
  {
    match reply
    case Gives(v) => Ok(v)
    case Fails(e) => Err(Sys(e))
  }

  /** What a descriptor delivers to successive reads: some bytes, then either end of
      file (`None`) or an error. */
  datatype Stream = Stream(data: seq<byte>, end: Option<Errno>)

  /** `io.ReadFull` of `n` bytes: the first `n` bytes when the stream has them;
      otherwise the stream's error, or `io.EOF` when it ended before any byte and
      `io.ErrUnexpectedEOF` when it ended part way. */
  function ReadFull(n: nat, s: Stream): (r: Result<seq<byte>>)
    ensures r.Ok? <==> |s.data| >= n
    ensures r.Ok? ==> r.value == s.data[..n]
    ensures r.Err? && s.end.None? ==> r.error == (if s.data == [] then EOF else ErrUnexpectedEOF)
    ensures r.Err? && s.end.Some? ==> r.error == Sys(s.end.value)
  {
    if |s.data| >= n then Ok(s.data[..n])
    else match s.end
      case Some(e) => Err(Sys(e))
      case None => if s.data == [] then Err(EOF) else Err(ErrUnexpectedEOF)
  }

  /** `make([]byte, n)` filled by the kernel: the kernel's bytes overwrite the start of
      the zeroed buffer, and never run past its end. */
  function KernelFill(n: nat, data: seq<byte>): (buf: seq<byte>)
    ensures |buf| == n
    ensures forall i :: 0 <= i < n ==> buf[i] == if i < |data| then data[i] else 0
  {
    if |data| >= n then data[..n] else data + seq(n - |data|, _ => 0)
  }
}
