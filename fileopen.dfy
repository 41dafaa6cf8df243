/** file_open.go: open a device node for reading and writing, falling back to
    read-only. `os.OpenFile` is an oracle: what it answers for a path and a mode. */
module FileOpen {
  import opened Types

  /** An open `*os.File`; `fd` is its descriptor. */
  datatype File = File(fd: nat)

  /** The access mode handed to `os.OpenFile`: `O_RDWR` or `O_RDONLY`. */
  datatype OpenMode = ReadWrite | ReadOnlyMode

  /** What `os.OpenFile(path, mode, 0)` answers. */
  type Opener = (string, OpenMode) -> Result<File>

  /** The opens the read-write-then-read-only fallback makes on `path`. */
  function Attempts(path: string, open: Opener): seq<OpenMode>
  {
    if open(path, ReadWrite).Ok? then [ReadWrite] else [ReadWrite, ReadOnlyMode]
  }

  /** openReadWriteOrReadOnly. `attempts` lists the modes tried, in order. */
  method OpenReadWriteOrReadOnly(path: string, open: Opener)
    returns (file: Option<File>, readOnly: bool, err: MaybeError, attempts: seq<OpenMode>)
    ensures err.None? <==> file.Some?
    ensures open(path, ReadWrite).Ok? ==>
      file == Some(open(path, ReadWrite).value) && !readOnly && attempts == [ReadWrite]
    ensures open(path, ReadWrite).Err? ==> attempts == [ReadWrite, ReadOnlyMode]
    ensures open(path, ReadWrite).Err? && open(path, ReadOnlyMode).Ok? ==>
      file == Some(open(path, ReadOnlyMode).value) && readOnly
    ensures open(path, ReadWrite).Err? && open(path, ReadOnlyMode).Err? ==>
      file == None && !readOnly && err == Some(open(path, ReadOnlyMode).error)
  {
    attempts := [ReadWrite];
    var r := open(path, ReadWrite);
    if r.Ok? {
      return Some(r.value), false, None, attempts;
    }
    attempts := attempts + [ReadOnlyMode];
    r := open(path, ReadOnlyMode);
    if r.Err? {
      return None, false, Some(r.error), attempts;
    }
    return Some(r.value), true, None, attempts;
  }
}
