/** joystick_linux.go and joystick_types.go: the legacy joystick interface
    (/dev/input/jsX). A handle, its ioctl queries and settings, and reading js_event
    records. */
module Js {
  import opened Types
  import opened Ioctl
  import opened Abi
  import Text
  import Wait
  import FileOpen
  import Info

  const JoystickIOCBase: Word := 0x6a // 'j'

  function JsioCGVERSION(): Word { IOR(JoystickIOCBase, 0x01, AnySize) }
  function JsioCGAXES(): Word { IOR(JoystickIOCBase, 0x11, AnySize) }
  function JsioCGBUTTONS(): Word { IOR(JoystickIOCBase, 0x12, AnySize) }
  function JsioCGNAME(length: Word): Word { IOC(DirRead, JoystickIOCBase, 0x13, length) }
  function JsioCSCORR(): Word { IOW(JoystickIOCBase, 0x21, AnySize) }
  function JsioCGCORR(): Word { IOR(JoystickIOCBase, 0x22, AnySize) }
  function JsioCSAXMAP(): Word { IOW(JoystickIOCBase, 0x31, AnySize) }
  function JsioCGAXMAP(): Word { IOR(JoystickIOCBase, 0x32, AnySize) }
  function JsioCSBTNMAP(): Word { IOW(JoystickIOCBase, 0x33, AnySize) }
  function JsioCGBTNMAP(): Word { IOR(JoystickIOCBase, 0x34, AnySize) }

  /** The request codes as numbers: type 'j', the command number, the one
      interface-header size in the size field, and the direction. */
  lemma RequestCodes()
    ensures JsioCGVERSION() == 0x8010_6a01 && JsioCGAXES() == 0x8010_6a11 && JsioCGBUTTONS() == 0x8010_6a12
    ensures JsioCGNAME(128) == 0x8080_6a13
    ensures JsioCSCORR() == 0x4010_6a21 && JsioCGCORR() == 0x8010_6a22
    ensures JsioCSAXMAP() == 0x4010_6a31 && JsioCGAXMAP() == 0x8010_6a32
    ensures JsioCSBTNMAP() == 0x4010_6a33 && JsioCGBTNMAP() == 0x8010_6a34
  {
  }

  /** BtnMapLen: one entry per key code from BTN_MISC to KEY_MAX. */
  const BtnMapLen: nat := KeyMax as nat - BtnMisc as nat + 1

  lemma BtnMapLenValue()
    ensures BtnMapLen == 512 && AbsCnt == 64
  {
  }

  /** JoystickEvent, struct js_event as the library returns it. */
  datatype JoystickEvent = JoystickEvent(time: uint32, value: int16, typ: uint8, number: uint8)

  /** Joystick: its path, the open file (`None` once closed) and whether it was
      opened read-only. */
  class Joystick {
    var path: string
    var file: Option<FileOpen.File>
    var readOnly: bool

    /** Only an open handle can be read-only: Close clears the flag. */
    predicate Valid()
      reads this
    {
      file.None? ==> !readOnly
    }

    constructor (path: string, file: FileOpen.File, readOnly: bool)
      ensures Valid()
      ensures this.path == path && this.file == Some(file) && this.readOnly == readOnly
    {
      this.path := path;
      this.file := Some(file);
      this.readOnly := readOnly;
    }
  }

  predicate IsOpen(j: Joystick?)
    reads j
  {
    j != null && j.file.Some?
  }

  function Fd(j: Joystick?): nat
    reads j
    requires IsOpen(j)
  {
    j.file.value.fd
  }

  /** The outcome of opening `path`, as `Xpad.Opened` states it for event devices:
      a valid open handle on `path` holding the file that the read-write open gave,
      or else the one the read-only open gave, and read-only exactly when the
      read-write open failed; or, when both opens failed, no handle and the
      read-only open's error. */
  predicate Opened(path: string, open: FileOpen.Opener, j: Joystick?, err: MaybeError,
                   attempts: seq<FileOpen.OpenMode>)
    reads j
  {
    && (err.None? <==> j != null)
    && (j != null ==>
          j.path == path && j.Valid() && j.file.Some?
          && j.readOnly == open(path, FileOpen.ReadWrite).Err?
          && (if open(path, FileOpen.ReadWrite).Ok? then open(path, FileOpen.ReadWrite) == Ok(j.file.value)
              else open(path, FileOpen.ReadOnlyMode) == Ok(j.file.value)))
    && (err.Some? ==>
          open(path, FileOpen.ReadWrite).Err? && open(path, FileOpen.ReadOnlyMode).Err?
          && err == Some(open(path, FileOpen.ReadOnlyMode).error))
    && attempts == FileOpen.Attempts(path, open)
  }

  /** OpenJoystick: the read-write-then-read-only fallback, recorded in a new handle. */
  method OpenJoystick(path: string, open: FileOpen.Opener)
    returns (j: Joystick?, err: MaybeError, attempts: seq<FileOpen.OpenMode>)
    ensures j != null ==> fresh(j)
    ensures Opened(path, open, j, err, attempts)
  {
    var file, readOnly;
    file, readOnly, err, attempts := FileOpen.OpenReadWriteOrReadOnly(path, open);
    if err.Some? {
      return null, err, attempts;
    }
    j := new Joystick(path, file.value, readOnly);
  }

  /** Close. `closeErr` is what closing the file reports. A nil or closed handle is
      left alone and reports nothing. */
  method Close(j: Joystick?, closeErr: MaybeError) returns (err: MaybeError)
    modifies j
    ensures !old(IsOpen(j)) ==> err == None && (j != null ==> unchanged(j))
    ensures old(IsOpen(j)) ==> err == closeErr && j.file == None && !j.readOnly && j.path == old(j.path)
    ensures j != null ==> FD(j) == Err(ErrClosed)
    ensures j != null && old(j.Valid()) ==> j.Valid()
  {
    if j == null || j.file.None? {
      return None;
    }
    err := closeErr;
    j.file := None;
    j.readOnly := false;
  }

  /** FD: the open file's descriptor, or ErrClosed. */
  function FD(j: Joystick?): (r: Result<nat>)
    reads j
    ensures r.Ok? <==> IsOpen(j)
    ensures r.Ok? ==> r.value == Fd(j)
    ensures r.Err? ==> r.error == ErrClosed
  {
    if j == null || j.file.None? then Err(ErrClosed) else Ok(j.file.value.fd)
  }

  /** ReadOnly: true for a nil handle, otherwise the stored flag. */
  function ReadOnly(j: Joystick?): (b: bool)
    reads j
    ensures j == null ==> b
    ensures j != null ==> b == j.readOnly
  {
    j == null || j.readOnly
  }

  /** A query of one value through a pointer: ErrClosed without a system call on a
      closed handle, otherwise the one ioctl and its answer. */
  predicate QueryOutcome<T(==)>(j: Joystick?, request: Word, reply: Reply<T>, r: Result<T>, calls: seq<Syscall>)
    reads j
  {
    if !IsOpen(j) then r == Err(ErrClosed) && calls == []
    else calls == [Ioctl(Fd(j), request, OutParam)] && r == Answer(reply)
  }

  method Query<T(==)>(j: Joystick?, request: Word, reply: Reply<T>) returns (r: Result<T>, calls: seq<Syscall>)
    ensures QueryOutcome(j, request, reply, r, calls)
  {
    if !IsOpen(j) {
      return Err(ErrClosed), [];
    }
    calls := [Ioctl(Fd(j), request, OutParam)];
    match reply {
      case Fails(e) => r := Err(Sys(e));
      case Gives(v) => r := Ok(v);
    }
  }

  /** Version: JSIOCGVERSION. */
  method Version(j: Joystick?, reply: Reply<uint32>) returns (r: Result<uint32>, calls: seq<Syscall>)
    ensures QueryOutcome(j, JsioCGVERSION(), reply, r, calls)
  {
    r, calls := Query(j, JsioCGVERSION(), reply);
  }

  /** Axes: JSIOCGAXES. */
  method Axes(j: Joystick?, reply: Reply<uint8>) returns (r: Result<uint8>, calls: seq<Syscall>)
    ensures QueryOutcome(j, JsioCGAXES(), reply, r, calls)
  {
    r, calls := Query(j, JsioCGAXES(), reply);
  }

  /** Buttons: JSIOCGBUTTONS. */
  method Buttons(j: Joystick?, reply: Reply<uint8>) returns (r: Result<uint8>, calls: seq<Syscall>)
    ensures QueryOutcome(j, JsioCGBUTTONS(), reply, r, calls)
  {
    r, calls := Query(j, JsioCGBUTTONS(), reply);
  }

  /** Correction: JSIOCGCORR into a js_corr. */
  method Correction(j: Joystick?, reply: Reply<JsCorrection>) returns (r: Result<JsCorrection>, calls: seq<Syscall>)
    ensures QueryOutcome(j, JsioCGCORR(), reply, r, calls)
  {
    r, calls := Query(j, JsioCGCORR(), reply);
  }

  /** Name: a 128-byte buffer the kernel fills, up to its last non-zero byte. */
  method Name(j: Joystick?, reply: Reply<seq<byte>>) returns (r: Result<string>, calls: seq<Syscall>)
    ensures !IsOpen(j) ==> r == Err(ErrClosed) && calls == []
    ensures IsOpen(j) ==> calls == [Ioctl(Fd(j), JsioCGNAME(128), Buffer(128))]
    ensures IsOpen(j) && reply.Fails? ==> r == Err(Sys(reply.errno))
    ensures IsOpen(j) && reply.Gives? ==> r == Ok(Text.BytesText(Text.TrimRightNul(KernelFill(128, reply.value))))
    ensures r.Ok? ==> |r.value| <= 128 && (r.value == [] || r.value[|r.value| - 1] != 0 as char)
  {
    if !IsOpen(j) {
      return Err(ErrClosed), [];
    }
    calls := [Ioctl(Fd(j), JsioCGNAME(128), Buffer(128))];
    match reply {
      case Fails(e) => r := Err(Sys(e));
      case Gives(data) => r := Ok(Text.BytesText(Text.TrimRightNul(KernelFill(128, data))));
    }
  }

  /** AxisMap: JSIOCGAXMAP into an array of AbsCnt entries, returned whole. `reply`
      holds the entries the kernel stores; the rest stay zero. */
  method AxisMap(j: Joystick?, reply: Reply<seq<uint8>>) returns (r: Result<seq<uint8>>, calls: seq<Syscall>)
    ensures !IsOpen(j) ==> r == Err(ErrClosed) && calls == []
    ensures IsOpen(j) ==> calls == [Ioctl(Fd(j), JsioCGAXMAP(), Buffer(AbsCnt))]
    ensures IsOpen(j) && reply.Fails? ==> r == Err(Sys(reply.errno))
    ensures IsOpen(j) && reply.Gives? ==> r == Ok(Filled(AbsCnt, reply.value, 0))
    ensures r.Ok? ==> |r.value| == AbsCnt
    ensures IsOpen(j) && reply.Gives? && |reply.value| == AbsCnt ==> r == Ok(reply.value)
  {
    if !IsOpen(j) {
      return Err(ErrClosed), [];
    }
    calls := [Ioctl(Fd(j), JsioCGAXMAP(), Buffer(AbsCnt))];
    match reply {
      case Fails(e) => r := Err(Sys(e));
      case Gives(data) =>
        if |data| == AbsCnt { FilledFull(AbsCnt, data, 0); }
        r := Ok(Filled(AbsCnt, data, 0));
    }
  }

  /** ButtonMap: JSIOCGBTNMAP into an array of BtnMapLen entries, returned whole. */
  method ButtonMap(j: Joystick?, reply: Reply<seq<uint16>>) returns (r: Result<seq<uint16>>, calls: seq<Syscall>)
    ensures !IsOpen(j) ==> r == Err(ErrClosed) && calls == []
    ensures IsOpen(j) ==> calls == [Ioctl(Fd(j), JsioCGBTNMAP(), Buffer(2 * BtnMapLen))]
    ensures IsOpen(j) && reply.Fails? ==> r == Err(Sys(reply.errno))
    ensures IsOpen(j) && reply.Gives? ==> r == Ok(Filled(BtnMapLen, reply.value, 0))
    ensures r.Ok? ==> |r.value| == BtnMapLen
    ensures IsOpen(j) && reply.Gives? && |reply.value| == BtnMapLen ==> r == Ok(reply.value)
  {
    if !IsOpen(j) {
      return Err(ErrClosed), [];
    }
    calls := [Ioctl(Fd(j), JsioCGBTNMAP(), Buffer(2 * BtnMapLen))];
    match reply {
      case Fails(e) => r := Err(Sys(e));
      case Gives(data) =>
        if |data| == BtnMapLen { FilledFull(BtnMapLen, data, 0); }
        r := Ok(Filled(BtnMapLen, data, 0));
    }
  }

  /** A zeroed array of `n` entries after the kernel stored `data` at its start. */
  function Filled<T>(n: nat, data: seq<T>, zero: T): (a: seq<T>)
    ensures |a| == n
    ensures forall i :: 0 <= i < n ==> a[i] == if i < |data| then data[i] else zero
  {
    if |data| >= n then data[..n] else data + seq(n - |data|, _ => zero)
  }

  /** A kernel answer that fills the whole array is returned unchanged. */
  lemma FilledFull<T>(n: nat, data: seq<T>, zero: T)
    requires |data| == n
    ensures Filled(n, data, zero) == data
  {
    assert data[..n] == data;
  }

  /** copy(arr[:], mapping) into a fresh array of exactly |mapping| entries. */
  method CopyToArray<T(0)>(mapping: seq<T>) returns (a: array<T>)
    ensures fresh(a) && a[..] == mapping
  {
    a := new T[|mapping|];
    forall i | 0 <= i < |mapping| {
      a[i] := mapping[i];
    }
  }

  /** The shared guards of the setters: closed, then read-only, then the length. */
  function SetGuard(j: Joystick?, got: nat, want: nat, lengthError: Error): (e: MaybeError)
    reads j
    ensures e == None <==> IsOpen(j) && !j.readOnly && got == want
    ensures !IsOpen(j) ==> e == Some(ErrClosed)
  {
    if !IsOpen(j) then Some(ErrClosed)
    else if j.readOnly then Some(ErrReadOnly)
    else if got != want then Some(lengthError)
    else None
  }

  /** SetAxisMap: exactly AbsCnt entries, copied into an array handed to JSIOCSAXMAP. */
  method SetAxisMap(j: Joystick?, mapping: seq<uint8>, reply: Option<Errno>) returns (err: MaybeError, calls: seq<Syscall>)
    ensures !IsOpen(j) ==> err == Some(ErrClosed) && calls == []
    ensures IsOpen(j) && j.readOnly ==> err == Some(ErrReadOnly) && calls == []
    ensures IsOpen(j) && !j.readOnly && |mapping| != AbsCnt ==>
      err == Some(AxisMapLength(|mapping|, AbsCnt)) && calls == []
    ensures IsOpen(j) && !j.readOnly && |mapping| == AbsCnt ==>
      calls == [Ioctl(Fd(j), JsioCSAXMAP(), AxisMapping(mapping))]
      && err == (if reply.Some? then Some(Sys(reply.value)) else None)
  {
    var guard := SetGuard(j, |mapping|, AbsCnt, AxisMapLength(|mapping|, AbsCnt));
    if guard.Some? {
      return guard, [];
    }
    var arr := CopyToArray(mapping);
    calls := [Ioctl(Fd(j), JsioCSAXMAP(), AxisMapping(arr[..]))];
    err := if reply.Some? then Some(Sys(reply.value)) else None;
  }

  /** SetButtonMap: exactly BtnMapLen entries, copied into an array handed to
      JSIOCSBTNMAP. */
  method SetButtonMap(j: Joystick?, mapping: seq<uint16>, reply: Option<Errno>) returns (err: MaybeError, calls: seq<Syscall>)
    ensures !IsOpen(j) ==> err == Some(ErrClosed) && calls == []
    ensures IsOpen(j) && j.readOnly ==> err == Some(ErrReadOnly) && calls == []
    ensures IsOpen(j) && !j.readOnly && |mapping| != BtnMapLen ==>
      err == Some(ButtonMapLength(|mapping|, BtnMapLen)) && calls == []
    ensures IsOpen(j) && !j.readOnly && |mapping| == BtnMapLen ==>
      calls == [Ioctl(Fd(j), JsioCSBTNMAP(), ButtonMapping(mapping))]
      && err == (if reply.Some? then Some(Sys(reply.value)) else None)
  {
    var guard := SetGuard(j, |mapping|, BtnMapLen, ButtonMapLength(|mapping|, BtnMapLen));
    if guard.Some? {
      return guard, [];
    }
    var arr := CopyToArray(mapping);
    calls := [Ioctl(Fd(j), JsioCSBTNMAP(), ButtonMapping(arr[..]))];
    err := if reply.Some? then Some(Sys(reply.value)) else None;
  }

  /** SetCorrection: JSIOCSCORR with the correction as given. */
  method SetCorrection(j: Joystick?, corr: JsCorrection, reply: Option<Errno>) returns (err: MaybeError, calls: seq<Syscall>)
    ensures !IsOpen(j) ==> err == Some(ErrClosed) && calls == []
    ensures IsOpen(j) && j.readOnly ==> err == Some(ErrReadOnly) && calls == []
    ensures IsOpen(j) && !j.readOnly ==>
      calls == [Ioctl(Fd(j), JsioCSCORR(), CorrectionValue(corr))]
      && err == (if reply.Some? then Some(Sys(reply.value)) else None)
  {
    if !IsOpen(j) {
      return Some(ErrClosed), [];
    }
    if j.readOnly {
      return Some(ErrReadOnly), [];
    }
    calls := [Ioctl(Fd(j), JsioCSCORR(), CorrectionValue(corr))];
    err := if reply.Some? then Some(Sys(reply.value)) else None;
  }

  /** The JoystickEvent a js_event record becomes. */
  function EventOf(raw: JsEventRecord): (ev: JoystickEvent)
    ensures ev.time == raw.time && ev.value == raw.value && ev.typ == raw.typ && ev.number == raw.number
  {
    JoystickEvent(raw.time, raw.value, raw.typ, raw.number)
  }

  /** The outcome of ReadEvent once the wait is over: a wait error ends it, otherwise
      one full read of 8 bytes, decoded. */
  predicate ReadOutcome(fd: nat, waitErr: MaybeError, input: Stream, r: Result<JoystickEvent>, calls: seq<Syscall>)
  {
    if waitErr.Some? then r == Err(waitErr.value) && calls == []
    else
      calls == [Read(fd, JsEventSize)]
      && match ReadFull(JsEventSize, input)
         case Err(e) => r == Err(e)
         case Ok(buf) => r == Ok(EventOf(DecodeJsEvent(buf)))
  }

  /** ReadEvent: the closed guard, the wait, one full read and the decoding. */
  method ReadEvent(j: Joystick?, timeout: int, now: nat -> int, sel: nat -> Wait.SelectOutcome, input: Stream)
    returns (r: Result<JoystickEvent>, selects: seq<Wait.SelectCall>, calls: seq<Syscall>)
    requires IsOpen(j) ==> exists k: nat :: Wait.Stops(timeout, now, sel, k)
    ensures !IsOpen(j) ==> r == Err(ErrClosed) && selects == [] && calls == []
    ensures IsOpen(j) ==>
      var waitErr := Wait.WaitError(sel, |selects|);
      Wait.Waited(Fd(j), timeout, now, sel, waitErr, selects)
      && ReadOutcome(Fd(j), waitErr, input, r, calls)
  {
    if !IsOpen(j) {
      return Err(ErrClosed), [], [];
    }
    var fd := Fd(j);
    var err;
    err, selects := Wait.WaitReadable(fd, timeout, now, sel);
    if err.Some? {
      return Err(err.value), selects, [];
    }
    calls := [Read(fd, JsEventSize)];
    var buf := ReadFull(JsEventSize, input);
    if buf.Err? {
      return Err(buf.error), selects, calls;
    }
    var raw := DecodeJsEvent(buf.value);
    r := Ok(JoystickEvent(raw.time, raw.value, raw.typ, raw.number));
  }

  /** A descriptor that delivers an encoded js_event yields that event. */
  lemma ReadsEncodedEvent(fd: nat, raw: JsEventRecord, rest: seq<byte>, r: Result<JoystickEvent>, calls: seq<Syscall>)
    requires ReadOutcome(fd, None, Stream(EncodeJsEvent(raw) + rest, None), r, calls)
    ensures r == Ok(EventOf(raw))
  {
    var bytes := EncodeJsEvent(raw) + rest;
    assert bytes[..JsEventSize] == EncodeJsEvent(raw);
    DecodeEncodeJsEvent(raw);
  }

  /** OpenJoystickDevice: ErrNotFound when discovery found no joystick node,
      otherwise OpenJoystick on it. */
  method OpenJoystickDevice(info: Info.DeviceInfo, open: FileOpen.Opener)
    returns (j: Joystick?, err: MaybeError, attempts: seq<FileOpen.OpenMode>)
    ensures info.joystickPath == "" ==> j == null && err == Some(ErrNotFound) && attempts == []
    ensures j != null ==> fresh(j)
    ensures info.joystickPath != "" ==> Opened(info.joystickPath, open, j, err, attempts)
  {
    if info.joystickPath == "" {
      return null, Some(ErrNotFound), [];
    }
    j, err, attempts := OpenJoystick(info.joystickPath, open);
  }

  /** DeviceInfo.OpenJoystick: the same as OpenJoystickDevice. */
  method InfoOpenJoystick(info: Info.DeviceInfo, open: FileOpen.Opener)
    returns (j: Joystick?, err: MaybeError, attempts: seq<FileOpen.OpenMode>)
    ensures info.joystickPath == "" ==> j == null && err == Some(ErrNotFound) && attempts == []
    ensures j != null ==> fresh(j)
    ensures info.joystickPath != "" ==> Opened(info.joystickPath, open, j, err, attempts)
  {
    j, err, attempts := OpenJoystickDevice(info, open);
  }
}
