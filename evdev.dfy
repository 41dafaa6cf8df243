/** evdev_linux.go: the evdev ioctl request codes, capability bitsets, the device
    queries, and reading and writing `input_event` records. The kernel's answers are
    oracles; every query returns the system calls it issued. */
module Evdev {
  import opened Types
  import opened Ioctl
  import opened Abi
  import Text
  import Wait
  import Xpad
  import FileOpen

  const EvdevIOCBase: Word := 0x45 // 'E'

  function EvioCGNAME(length: Word): Word { IOC(DirRead, EvdevIOCBase, 0x06, length) }
  function EvioCGPHYS(length: Word): Word { IOC(DirRead, EvdevIOCBase, 0x07, length) }
  function EvioCGUNIQ(length: Word): Word { IOC(DirRead, EvdevIOCBase, 0x08, length) }
  function EvioCGID(): Word { IOR(EvdevIOCBase, 0x02, AnySize) }
  function EvioCGBIT(ev: uint16, length: Word): Word { IOC(DirRead, EvdevIOCBase, 0x20 + ev as Word, length) }
  function EvioCGABS(code: uint16): Word { IOR(EvdevIOCBase, 0x40 + code as Word, AnySize) }
  function EvioCSFF(): Word { IOW(EvdevIOCBase, 0x80, AnySize) }
  function EvioCRMFF(): Word { IOW(EvdevIOCBase, 0x81, AnySize) }
  function EvioCGEFFECTS(): Word { IOR(EvdevIOCBase, 0x84, AnySize) }
  function EvioCGRAB(): Word { IOW(EvdevIOCBase, 0x90, AnySize) }

  /** The request codes, as numbers: type 'E' in bits 8-15, the command number in bits
      0-7, the length (or the one interface-header size) in bits 16-29, and read
      (2) or write (1) in bits 30-31. */
  lemma RequestCodes()
    ensures EvioCGNAME(256) == 0x8100_4506 && EvioCGPHYS(256) == 0x8100_4507 && EvioCGUNIQ(256) == 0x8100_4508
    ensures EvioCGID() == 0x8010_4502
    ensures EvioCGBIT(0, 4) == 0x8004_4520
    ensures EvioCGBIT(1, 96) == 0x8060_4521 && EvioCGBIT(3, 8) == 0x8008_4523
    ensures EvioCGBIT(0x15, 16) == 0x8010_4535 && EvioCGBIT(0x11, 2) == 0x8002_4531
    ensures EvioCGABS(0) == 0x8010_4540
    ensures EvioCSFF() == 0x4010_4580 && EvioCRMFF() == 0x4010_4581
    ensures EvioCGEFFECTS() == 0x8010_4584 && EvioCGRAB() == 0x4010_4590
  {
  }

  /** The axis code is not masked: code 0xc0 overflows the number field, and since
      the fields are or-ed together the request is the one for number 0. */
  lemma AbsCodeSpills()
    ensures EvioCGABS(0xc0) == IOR(EvdevIOCBase, 0, AnySize) && FieldNr(EvioCGABS(0xc0)) == 0
  {
  }

  // ---------------------------------------------------------------------------
  // Capability bitsets

  /** bitsetBytes: the bytes a bitmap needs to hold bit `max`. */
  function BitsetBytes(max: uint16): (n: nat)
    ensures max < 8 * n && 8 * (n - 1) <= max
  {
    max as nat / 8 + 1
  }

  lemma BitsetBytesValues()
    ensures BitsetBytes(0) == 1 && BitsetBytes(7) == 1 && BitsetBytes(8) == 2
    ensures BitsetBytes(15) == 2 && BitsetBytes(16) == 3
    ensures BitsetBytes(EVMax) == 4
  {
  }

  /** The single-bit byte `1 << k`. */
  function Mask(k: nat): bv8
    requires k < 8
  {
    1 << (k as bv3)
  }

  /** bitsetHas: bit `code % 8`, counting from the least significant, of byte
      `code / 8`; false when that byte is missing. */
  predicate BitsetHas(bits: seq<byte>, code: uint16)
  {
    code / 8 < |bits| && HasBit(bits[code / 8], code % 8)
  }

  /** Bit `k` of a byte. */
  predicate HasBit(b: byte, k: nat)
    requires k < 8
  {
    (b as bv8) & Mask(k) != 0
  }

  /** The byte with bit `k` set as well. */
  function WithBit(b: byte, k: nat): byte
    requires k < 8
  {
    ((b as bv8) | Mask(k)) as int
  }

  /** The bytes of the unit test: bit 4 and bit 8 are set, bit 5 is not. */
  lemma BitsetHasExample()
    ensures BitsetHas([0x10, 0x01], 4) && !BitsetHas([0x10, 0x01], 5) && BitsetHas([0x10, 0x01], 8)
  {
  }

  /** A code whose byte lies past the buffer is reported absent, not as an error. */
  lemma BitsetHasOutside(bits: seq<byte>, code: uint16)
    requires code / 8 >= |bits|
    ensures !BitsetHas(bits, code)
  {
  }

  /** The kernel's side: `set_bit(code, bits)` on a byte buffer. */
  function WithCode(bits: seq<byte>, code: uint16): (r: seq<byte>)
    ensures |r| == |bits|
  {
    if code / 8 < |bits| then bits[code / 8 := WithBit(bits[code / 8], code % 8)] else bits
  }

  /** The bitset the kernel reports when it supports `codes`. */
  function BitsetOf(codes: seq<uint16>, n: nat): (bits: seq<byte>)
    ensures |bits| == n
  {
    if codes == [] then seq(n, _ => 0) else WithCode(BitsetOf(codes[..|codes| - 1], n), codes[|codes| - 1])
  }

  lemma Bv3RoundTrip(a: nat)
    requires a < 8
    ensures (a as bv3) as int == a
  {
  }

  lemma Bv8RoundTrip(x: bv8)
    ensures (x as int) as bv8 == x
  {
  }

  lemma OrMask(w: bv8, a: bv3, b: bv3)
    ensures (w | (1 << a)) & (1 << b) != 0 <==> a == b || w & (1 << b) != 0
  {
  }

  lemma SameByteSameBit(c: nat, j: nat)
    requires c / 8 == j / 8
    ensures c == j <==> c % 8 == j % 8
  {
  }

  lemma WithBitHas(b: byte, k: nat, j: nat)
    requires k < 8 && j < 8
    ensures HasBit(WithBit(b, k), j) <==> j == k || HasBit(b, j)
  {
    Bv8RoundTrip((b as bv8) | Mask(k));
    OrMask(b as bv8, k as bv3, j as bv3);
    Bv3RoundTrip(k);
    Bv3RoundTrip(j);
  }

  /** Setting a code leaves the codes of the other bytes as they were. */
  lemma WithCodeOtherByte(bits: seq<byte>, c: uint16, j: uint16)
    requires c / 8 != j / 8
    ensures BitsetHas(WithCode(bits, c), j) == BitsetHas(bits, j)
  {
    if c / 8 < |bits| && j / 8 < |bits| {
      assert WithCode(bits, c)[j / 8] == bits[j / 8];
    }
  }

  /** Within its own byte, setting a code adds exactly that code. */
  lemma WithCodeSameByte(bits: seq<byte>, c: uint16, j: uint16)
    requires c / 8 == j / 8 < |bits|
    ensures BitsetHas(WithCode(bits, c), j) <==> BitsetHas(bits, j) || j == c
  {
    var b := bits[c / 8];
    assert WithCode(bits, c)[j / 8] == WithBit(b, c % 8);
    WithBitHas(b, c % 8, j % 8);
    SameByteSameBit(c, j);
  }

  /** Setting one code adds exactly that code, when its byte exists. */
  lemma WithCodeHas(bits: seq<byte>, c: uint16, j: uint16)
    ensures BitsetHas(WithCode(bits, c), j) <==> BitsetHas(bits, j) || (j == c && c / 8 < |bits|)
  {
    if c / 8 != j / 8 {
      WithCodeOtherByte(bits, c, j);
    } else if c / 8 < |bits| {
      WithCodeSameByte(bits, c, j);
    }
  }

  /** bitsetHas reads back exactly the supported codes that fit in the buffer. */
  lemma {:induction false} BitsetOfHas(codes: seq<uint16>, n: nat, j: uint16)
    ensures BitsetHas(BitsetOf(codes, n), j) <==> j in codes && j / 8 < n
  {
    if codes != [] {
      var init := codes[..|codes| - 1];
      BitsetOfHas(init, n, j);
      WithCodeHas(BitsetOf(init, n), codes[|codes| - 1], j);
      assert codes == init + [codes[|codes| - 1]];
    } else if j / 8 < n {
      assert BitsetOf(codes, n)[j / 8] == 0;
    }
  }

  /** The largest code of each event type HasEventCode supports. */
  function MaxCode(ev: uint16): (m: Option<uint16>)
    ensures m.Some? <==> ev in {EVKey, EVAbs, EVFF, EVLed}
  {
    if ev == EVKey then Some(KeyMax)
    else if ev == EVAbs then Some(AbsMax)
    else if ev == EVFF then Some(FFMax)
    else if ev == EVLed then Some(LEDMax)
    else None
  }

  /** Each of these maxima is the last bit of its last byte, so the buffer holds
      exactly the codes 0..max. */
  lemma MaxCodeFillsBuffer(ev: uint16)
    requires MaxCode(ev).Some?
    ensures 8 * BitsetBytes(MaxCode(ev).value) == MaxCode(ev).value + 1
  {
  }

  // ---------------------------------------------------------------------------
  // Queries

  /** eventBitset: the capability bitmap of event type `ev`, in a zeroed buffer of
      bitsetBytes(max) bytes that the kernel fills. */
  method EventBitset(d: Xpad.Device?, ev: uint16, max: uint16, reply: Reply<seq<byte>>)
    returns (r: Result<seq<byte>>, calls: seq<Syscall>)
    ensures !Xpad.IsOpen(d) ==> r == Err(ErrClosed) && calls == []
    ensures Xpad.IsOpen(d) ==>
      calls == [Ioctl(Xpad.Fd(d), EvioCGBIT(ev, BitsetBytes(max) as Word), Buffer(BitsetBytes(max)))]
    ensures Xpad.IsOpen(d) && reply.Fails? ==> r == Err(Sys(reply.errno))
    ensures Xpad.IsOpen(d) && reply.Gives? ==> r == Ok(KernelFill(BitsetBytes(max), reply.value))
    ensures r.Ok? ==> |r.value| == BitsetBytes(max)
  {
    if !Xpad.IsOpen(d) {
      return Err(ErrClosed), [];
    }
    var length := BitsetBytes(max);
    var fd := Xpad.Fd(d);
    calls := [Ioctl(fd, EvioCGBIT(ev, length as Word), Buffer(length))];
    match reply {
      case Fails(e) => r := Err(Sys(e));
      case Gives(data) => r := Ok(KernelFill(length, data));
    }
  }

  /** EventTypes: the event-type bitmap, type 0 with EV_MAX, so four bytes. */
  method EventTypes(d: Xpad.Device?, reply: Reply<seq<byte>>) returns (r: Result<seq<byte>>, calls: seq<Syscall>)
    ensures !Xpad.IsOpen(d) ==> r == Err(ErrClosed) && calls == []
    ensures Xpad.IsOpen(d) ==> calls == [Ioctl(Xpad.Fd(d), EvioCGBIT(0, 4), Buffer(4))]
    ensures Xpad.IsOpen(d) ==> r == (if reply.Fails? then Err(Sys(reply.errno)) else Ok(KernelFill(4, reply.value)))
  {
    r, calls := EventBitset(d, 0, EVMax, reply);
  }

  /** HasEventType: the type's bit in the event-type bitmap. */
  method HasEventType(d: Xpad.Device?, ev: uint16, reply: Reply<seq<byte>>)
    returns (has: bool, err: MaybeError, calls: seq<Syscall>)
    ensures !Xpad.IsOpen(d) ==> !has && err == Some(ErrClosed) && calls == []
    ensures Xpad.IsOpen(d) ==> calls == [Ioctl(Xpad.Fd(d), EvioCGBIT(0, 4), Buffer(4))]
    ensures Xpad.IsOpen(d) && reply.Fails? ==> !has && err == Some(Sys(reply.errno))
    ensures Xpad.IsOpen(d) && reply.Gives? ==> err == None && has == BitsetHas(KernelFill(4, reply.value), ev)
    ensures ev >= 32 ==> !has
  {
    var bits;
    bits, calls := EventTypes(d, reply);
    if bits.Err? {
      return false, Some(bits.error), calls;
    }
    return BitsetHas(bits.value, ev), None, calls;
  }

  /** HasEventCode: the code's bit in the type's bitmap. An unsupported type is an
      error before the handle is even looked at. */
  method HasEventCode(d: Xpad.Device?, ev: uint16, code: uint16, reply: Reply<seq<byte>>)
    returns (has: bool, err: MaybeError, calls: seq<Syscall>)
    ensures MaxCode(ev).None? ==> !has && err == Some(UnsupportedEventType(ev)) && calls == []
    ensures MaxCode(ev).Some? && !Xpad.IsOpen(d) ==> !has && err == Some(ErrClosed) && calls == []
    ensures MaxCode(ev).Some? && Xpad.IsOpen(d) ==>
      var n := BitsetBytes(MaxCode(ev).value);
      calls == [Ioctl(Xpad.Fd(d), EvioCGBIT(ev, n as Word), Buffer(n))]
      && (reply.Fails? ==> !has && err == Some(Sys(reply.errno)))
      && (reply.Gives? ==> err == None && has == BitsetHas(KernelFill(n, reply.value), code))
    ensures MaxCode(ev).Some? && code > MaxCode(ev).value ==> !has
  {
    var max := MaxCode(ev);
    if max.None? {
      return false, Some(UnsupportedEventType(ev)), [];
    }
    MaxCodeFillsBuffer(ev);
    var bits;
    bits, calls := EventBitset(d, ev, max.value, reply);
    if bits.Err? {
      return false, Some(bits.error), calls;
    }
    return BitsetHas(bits.value, code), None, calls;
  }

  /** getStringIoctl: a 256-byte buffer the kernel fills, up to its last non-zero
      byte. */
  method GetStringIoctl(d: Xpad.Device?, reqFn: Word -> Word, reply: Reply<seq<byte>>)
    returns (r: Result<string>, calls: seq<Syscall>)
    ensures !Xpad.IsOpen(d) ==> r == Err(ErrClosed) && calls == []
    ensures Xpad.IsOpen(d) ==> calls == [Ioctl(Xpad.Fd(d), reqFn(256), Buffer(256))]
    ensures Xpad.IsOpen(d) && reply.Fails? ==> r == Err(Sys(reply.errno))
    ensures Xpad.IsOpen(d) && reply.Gives? ==> r == Ok(Text.BytesText(Text.TrimRightNul(KernelFill(256, reply.value))))
    ensures r.Ok? ==> |r.value| <= 256 && (r.value == [] || r.value[|r.value| - 1] != 0 as char)
  {
    if !Xpad.IsOpen(d) {
      return Err(ErrClosed), [];
    }
    var fd := Xpad.Fd(d);
    calls := [Ioctl(fd, reqFn(256), Buffer(256))];
    match reply {
      case Fails(e) => r := Err(Sys(e));
      case Gives(data) =>
        var buf := KernelFill(256, data);
        r := Ok(Text.BytesText(Text.TrimRightNul(buf)));
    }
  }

  /** Name, Phys and Uniq: getStringIoctl with EVIOCGNAME, EVIOCGPHYS, EVIOCGUNIQ. */
  method Name(d: Xpad.Device?, reply: Reply<seq<byte>>) returns (r: Result<string>, calls: seq<Syscall>)
    ensures !Xpad.IsOpen(d) ==> r == Err(ErrClosed) && calls == []
    ensures Xpad.IsOpen(d) ==> calls == [Ioctl(Xpad.Fd(d), EvioCGNAME(256), Buffer(256))]
    ensures Xpad.IsOpen(d) && reply.Gives? ==> r == Ok(Text.BytesText(Text.TrimRightNul(KernelFill(256, reply.value))))
  {
    r, calls := GetStringIoctl(d, EvioCGNAME, reply);
  }

  method Phys(d: Xpad.Device?, reply: Reply<seq<byte>>) returns (r: Result<string>, calls: seq<Syscall>)
    ensures !Xpad.IsOpen(d) ==> r == Err(ErrClosed) && calls == []
    ensures Xpad.IsOpen(d) ==> calls == [Ioctl(Xpad.Fd(d), EvioCGPHYS(256), Buffer(256))]
    ensures Xpad.IsOpen(d) && reply.Gives? ==> r == Ok(Text.BytesText(Text.TrimRightNul(KernelFill(256, reply.value))))
  {
    r, calls := GetStringIoctl(d, EvioCGPHYS, reply);
  }

  method Uniq(d: Xpad.Device?, reply: Reply<seq<byte>>) returns (r: Result<string>, calls: seq<Syscall>)
    ensures !Xpad.IsOpen(d) ==> r == Err(ErrClosed) && calls == []
    ensures Xpad.IsOpen(d) ==> calls == [Ioctl(Xpad.Fd(d), EvioCGUNIQ(256), Buffer(256))]
    ensures Xpad.IsOpen(d) && reply.Gives? ==> r == Ok(Text.BytesText(Text.TrimRightNul(KernelFill(256, reply.value))))
  {
    r, calls := GetStringIoctl(d, EvioCGUNIQ, reply);
  }

  /** ID: EVIOCGID into an input_id. */
  method ID(d: Xpad.Device?, reply: Reply<InputID>) returns (r: Result<InputID>, calls: seq<Syscall>)
    ensures !Xpad.IsOpen(d) ==> r == Err(ErrClosed) && calls == []
    ensures Xpad.IsOpen(d) ==> calls == [Ioctl(Xpad.Fd(d), EvioCGID(), OutParam)] && r == Answer(reply)
  {
    if !Xpad.IsOpen(d) {
      return Err(ErrClosed), [];
    }
    calls := [Ioctl(Xpad.Fd(d), EvioCGID(), OutParam)];
    r := Answer(reply);
  }

  /** AbsInfo: EVIOCGABS(code) into an input_absinfo. */
  method AbsInfo(d: Xpad.Device?, code: uint16, reply: Reply<InputAbsInfo>)
    returns (r: Result<InputAbsInfo>, calls: seq<Syscall>)
    ensures !Xpad.IsOpen(d) ==> r == Err(ErrClosed) && calls == []
    ensures Xpad.IsOpen(d) ==> calls == [Ioctl(Xpad.Fd(d), EvioCGABS(code), OutParam)] && r == Answer(reply)
  {
    if !Xpad.IsOpen(d) {
      return Err(ErrClosed), [];
    }
    calls := [Ioctl(Xpad.Fd(d), EvioCGABS(code), OutParam)];
    r := Answer(reply);
  }

  /** EffectCount: EVIOCGEFFECTS into an int32, widened to int. */
  method EffectCount(d: Xpad.Device?, reply: Reply<int32>) returns (r: Result<int>, calls: seq<Syscall>)
    ensures !Xpad.IsOpen(d) ==> r == Err(ErrClosed) && calls == []
    ensures Xpad.IsOpen(d) ==> calls == [Ioctl(Xpad.Fd(d), EvioCGEFFECTS(), OutParam)]
    ensures Xpad.IsOpen(d) && reply.Fails? ==> r == Err(Sys(reply.errno))
    ensures Xpad.IsOpen(d) && reply.Gives? ==> r == Ok(reply.value as int)
  {
    if !Xpad.IsOpen(d) {
      return Err(ErrClosed), [];
    }
    calls := [Ioctl(Xpad.Fd(d), EvioCGEFFECTS(), OutParam)];
    match reply {
      case Fails(e) => r := Err(Sys(e));
      case Gives(count) => r := Ok(count as int);
    }
  }

  /** Grab: EVIOCGRAB with 1 to take exclusive access and 0 to release it. */
  method Grab(d: Xpad.Device?, grab: bool, reply: Option<Errno>) returns (err: MaybeError, calls: seq<Syscall>)
    ensures !Xpad.IsOpen(d) ==> err == Some(ErrClosed) && calls == []
    ensures Xpad.IsOpen(d) ==> calls == [Ioctl(Xpad.Fd(d), EvioCGRAB(), Int32Value(if grab then 1 else 0))]
    ensures Xpad.IsOpen(d) ==> err == (if reply.Some? then Some(Sys(reply.value)) else None)
  {
    if !Xpad.IsOpen(d) {
      return Some(ErrClosed), [];
    }
    var value: int32 := 0;
    if grab {
      value := 1;
    }
    calls := [Ioctl(Xpad.Fd(d), EvioCGRAB(), Int32Value(value))];
    err := if reply.Some? then Some(Sys(reply.value)) else None;
  }

  // ---------------------------------------------------------------------------
  // Events

  /** The record writeEvent serialises: a zero timestamp is replaced by `now`. */
  function RecordOf(ev: Xpad.Event, now: Timeval): (raw: InputEventRecord)
    ensures raw.typ == ev.kind && raw.code == ev.code && raw.value == ev.value
    ensures raw.time == if ev.when.Zero? then now else ev.when.tv
  {
    InputEventRecord(if ev.when.Zero? then now else ev.when.tv, ev.kind, ev.code, ev.value)
  }

  /** The Event readEvent builds from a record. */
  function EventOf(raw: InputEventRecord): (ev: Xpad.Event)
    ensures ev.when == Xpad.At(raw.time) && ev.kind == raw.typ && ev.code == raw.code && ev.value == raw.value
  {
    Xpad.Event(Xpad.At(raw.time), raw.typ, raw.code, raw.value)
  }

  /** What writeEvent puts on the wire reads back as the same event, its zero
      timestamp replaced by `now`. */
  lemma WrittenEventReadsBack(ev: Xpad.Event, now: Timeval)
    ensures EventOf(DecodeInputEvent(EncodeInputEvent(RecordOf(ev, now)))) ==
      ev.(when := Xpad.At(if ev.when.Zero? then now else ev.when.tv))
  {
    DecodeEncodeInputEvent(RecordOf(ev, now));
  }

  /** The outcome of writeEvent: closed first, then read-only, and only then one
      write of the 24-byte record, whose result is `writeErr`. */
  predicate WriteOutcome(d: Xpad.Device?, ev: Xpad.Event, now: Timeval, writeErr: MaybeError,
                         err: MaybeError, calls: seq<Syscall>)
    reads d
  {
    if !Xpad.IsOpen(d) then err == Some(ErrClosed) && calls == []
    else if d.readOnly then err == Some(ErrReadOnly) && calls == []
    else err == writeErr && calls == [Write(Xpad.Fd(d), EncodeInputEvent(RecordOf(ev, now)))]
  }

  /** writeEvent. `now` is the clock reading used for a zero timestamp and
      `writeErr` what the write reports. */
  method WriteInputEvent(d: Xpad.Device?, ev: Xpad.Event, now: Timeval, writeErr: MaybeError)
    returns (err: MaybeError, calls: seq<Syscall>)
    ensures WriteOutcome(d, ev, now, writeErr, err, calls)
  {
    if !Xpad.IsOpen(d) {
      return Some(ErrClosed), [];
    }
    if d.readOnly {
      return Some(ErrReadOnly), [];
    }
    var when := if ev.when.Zero? then now else ev.when.tv;
    var raw := InputEventRecord(when, ev.kind, ev.code, ev.value);
    calls := [Write(Xpad.Fd(d), EncodeInputEvent(raw))];
    err := writeErr;
  }

  /** SendEvent: the closed guard, then writeEvent. */
  method SendEvent(d: Xpad.Device?, ev: Xpad.Event, now: Timeval, writeErr: MaybeError)
    returns (err: MaybeError, calls: seq<Syscall>)
    ensures WriteOutcome(d, ev, now, writeErr, err, calls)
  {
    if !Xpad.IsOpen(d) {
      return Some(ErrClosed), [];
    }
    err, calls := WriteInputEvent(d, ev, now, writeErr);
  }

  /** The outcome of readEvent once the wait is over: a wait error ends it, otherwise
      one full read of 24 bytes, decoded. */
  predicate ReadOutcome(fd: nat, waitErr: MaybeError, input: Stream,
                        r: Result<Xpad.Event>, calls: seq<Syscall>)
  {
    if waitErr.Some? then r == Err(waitErr.value) && calls == []
    else
      calls == [Read(fd, InputEventSize)]
      && match ReadFull(InputEventSize, input)
         case Err(e) => r == Err(e)
         case Ok(buf) => r == Ok(EventOf(DecodeInputEvent(buf)))
  }

  /** readEvent: the closed guard, the wait, one full read and the decoding.
      `selects` are the wait's select calls and `input` what the descriptor
      delivers. */
  method ReadInputEvent(d: Xpad.Device?, timeout: int, now: nat -> int, sel: nat -> Wait.SelectOutcome, input: Stream)
    returns (r: Result<Xpad.Event>, selects: seq<Wait.SelectCall>, calls: seq<Syscall>)
    requires Xpad.IsOpen(d) ==> exists k: nat :: Wait.Stops(timeout, now, sel, k)
    ensures !Xpad.IsOpen(d) ==> r == Err(ErrClosed) && selects == [] && calls == []
    ensures Xpad.IsOpen(d) ==>
      var waitErr := Wait.WaitError(sel, |selects|);
      Wait.Waited(Xpad.Fd(d), timeout, now, sel, waitErr, selects)
      && ReadOutcome(Xpad.Fd(d), waitErr, input, r, calls)
  {
    if !Xpad.IsOpen(d) {
      return Err(ErrClosed), [], [];
    }
    var fd := Xpad.Fd(d);
    var err;
    err, selects := Wait.WaitReadable(fd, timeout, now, sel);
    if err.Some? {
      return Err(err.value), selects, [];
    }
    calls := [Read(fd, InputEventSize)];
    var buf := Abi.ReadFull(InputEventSize, input);
    if buf.Err? {
      return Err(buf.error), selects, calls;
    }
    var raw := DecodeInputEvent(buf.value);
    r := Ok(Xpad.Event(Xpad.At(raw.time), raw.typ, raw.code, raw.value));
  }

  /** ReadEvent: the closed guard, then readEvent. */
  method ReadEvent(d: Xpad.Device?, timeout: int, now: nat -> int, sel: nat -> Wait.SelectOutcome, input: Stream)
    returns (r: Result<Xpad.Event>, selects: seq<Wait.SelectCall>, calls: seq<Syscall>)
    requires Xpad.IsOpen(d) ==> exists k: nat :: Wait.Stops(timeout, now, sel, k)
    ensures !Xpad.IsOpen(d) ==> r == Err(ErrClosed) && selects == [] && calls == []
    ensures Xpad.IsOpen(d) ==>
      var waitErr := Wait.WaitError(sel, |selects|);
      Wait.Waited(Xpad.Fd(d), timeout, now, sel, waitErr, selects)
      && ReadOutcome(Xpad.Fd(d), waitErr, input, r, calls)
  {
    if !Xpad.IsOpen(d) {
      return Err(ErrClosed), [], [];
    }
    r, selects, calls := ReadInputEvent(d, timeout, now, sel, input);
  }

  /** A device that delivers the bytes another device wrote reads the event back. */
  lemma ReadBackWhatWasWritten(fd: nat, ev: Xpad.Event, now: Timeval, r: Result<Xpad.Event>, calls: seq<Syscall>)
    requires ReadOutcome(fd, None, Stream(EncodeInputEvent(RecordOf(ev, now)), None), r, calls)
    ensures r == Ok(ev.(when := Xpad.At(if ev.when.Zero? then now else ev.when.tv)))
  {
    var bytes := EncodeInputEvent(RecordOf(ev, now));
    assert bytes[..InputEventSize] == bytes;
    WrittenEventReadsBack(ev, now);
  }
}
