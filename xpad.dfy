/** xpad.go: the evdev device handle. A handle is open while it holds a file and
    closed once `Close` has dropped it; a nil handle behaves as a closed one. The
    operations take `Device?` because Go methods on a pointer receiver accept nil. */
module Xpad {
  import opened Types
  import FileOpen
  import Abi
  import Info

  /** `time.Time` as the library uses it: the zero time, or an instant with
      microsecond resolution. */
  datatype Time = Zero | At(tv: Abi.Timeval)

  /** Event, one input_event. */
  datatype Event = Event(when: Time, kind: uint16, code: uint16, value: int32)

  const EventUnknown: uint16 := 0

  /** Device: its path, the open file (`None` once closed) and whether it was
      opened read-only. */
  class Device {
    var path: string
    var file: Option<FileOpen.File>
    var readOnly: bool

    /** Only an open handle can be read-only: Close clears the flag. */
    predicate Valid()
      reads this
    {
      file.None? ==> !readOnly
    }

    constructor (path: string, file: FileOpen.File, readOnly: bool)
      ensures Valid()
      ensures this.path == path && this.file == Some(file) && this.readOnly == readOnly
    {
      this.path := path;
      this.file := Some(file);
      this.readOnly := readOnly;
    }
  }

  /** The handle holds an open file: every operation's first guard. */
  predicate IsOpen(d: Device?)
    reads d
  {
    d != null && d.file.Some?
  }

  /** The descriptor of an open handle. */
  function Fd(d: Device?): nat
    reads d
    requires IsOpen(d)
  {
    d.file.value.fd
  }

  /** The outcome of opening `path`: a valid open handle on `path` holding the file
      that the read-write open gave, or else the one the read-only open gave, and
      read-only exactly when the read-write open failed; or, when both opens
      failed, no handle and the read-only open's error. */
  predicate Opened(path: string, open: FileOpen.Opener, d: Device?, err: MaybeError,
                   attempts: seq<FileOpen.OpenMode>)
    reads d
  {
    && (err.None? <==> d != null)
    && (d != null ==>
          d.path == path && d.Valid() && d.file.Some?
          && d.readOnly == open(path, FileOpen.ReadWrite).Err?
          && (if open(path, FileOpen.ReadWrite).Ok? then open(path, FileOpen.ReadWrite) == Ok(d.file.value)
              else open(path, FileOpen.ReadOnlyMode) == Ok(d.file.value)))
    && (err.Some? ==>
          open(path, FileOpen.ReadWrite).Err? && open(path, FileOpen.ReadOnlyMode).Err?
          && err == Some(open(path, FileOpen.ReadOnlyMode).error))
    && attempts == FileOpen.Attempts(path, open)
  }

  /** Open: the read-write-then-read-only fallback, recorded in a new handle. */
  method Open(path: string, open: FileOpen.Opener)
    returns (d: Device?, err: MaybeError, attempts: seq<FileOpen.OpenMode>)
    ensures d != null ==> fresh(d)
    ensures Opened(path, open, d, err, attempts)
  {
    var file, readOnly;
    file, readOnly, err, attempts := FileOpen.OpenReadWriteOrReadOnly(path, open);
    if err.Some? {
      return null, err, attempts;
    }
    d := new Device(path, file.value, readOnly);
  }

  /** Close. `closeErr` is what closing the file reports. Closing a nil or closed
      handle does nothing and succeeds; otherwise the file and the read-only flag are
      dropped whatever closing the file reports. */
  method Close(d: Device?, closeErr: MaybeError) returns (err: MaybeError)
    modifies d
    ensures !old(IsOpen(d)) ==> err == None && (d != null ==> unchanged(d))
    ensures old(IsOpen(d)) ==> err == closeErr && d.file == None && !d.readOnly && d.path == old(d.path)
    ensures d != null ==> File(d) == Err(ErrClosed) && FD(d) == Err(ErrClosed)
    ensures d != null && old(d.Valid()) ==> d.Valid()
  {
    if d == null || d.file.None? {
      return None;
    }
    err := closeErr;
    d.file := None;
    d.readOnly := false;
  }

  /** File: the open file, or ErrClosed. */
  function File(d: Device?): (r: Result<FileOpen.File>)
    reads d
    ensures r.Ok? <==> IsOpen(d)
    ensures r.Ok? ==> r.value == d.file.value
    ensures r.Err? ==> r.error == ErrClosed
  {
    if d == null || d.file.None? then Err(ErrClosed) else Ok(d.file.value)
  }

  /** FD: the open file's descriptor, or ErrClosed. */
  function FD(d: Device?): (r: Result<nat>)
    reads d
    ensures r.Ok? <==> IsOpen(d)
    ensures r.Ok? ==> r.value == Fd(d) && File(d) == Ok(FileOpen.File(r.value))
    ensures r.Err? ==> r.error == ErrClosed
  {
    match File(d)
    case Ok(f) => Ok(f.fd)
    case Err(e) => Err(e)
  }

  /** ReadOnly: true for a nil handle, otherwise the stored flag. */
  function ReadOnly(d: Device?): (b: bool)
    reads d
    ensures d == null ==> b
    ensures d != null ==> b == d.readOnly
  {
    d == null || d.readOnly
  }

  /** A closed handle that is not nil reports false, because Close cleared the flag;
      only a nil handle reports true without an open file. */
  lemma ClosedNotReadOnly(d: Device?)
    requires d != null ==> d.Valid()
    requires !IsOpen(d)
    ensures ReadOnly(d) <==> d == null
  {
  }

  /** OpenDevice opens the discovered event node, without checking that its path is
      set. */
  method OpenDevice(info: Info.DeviceInfo, open: FileOpen.Opener)
    returns (d: Device?, err: MaybeError, attempts: seq<FileOpen.OpenMode>)
    ensures d != null ==> fresh(d)
    ensures Opened(info.path, open, d, err, attempts)
  {
    d, err, attempts := Open(info.path, open);
  }
}
