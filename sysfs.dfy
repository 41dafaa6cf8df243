/** The filesystem as the library sees it through `os` and `path/filepath`: regular
    files with text contents, paths whose reads and writes the system refuses, symbolic
    links, the targets that `filepath.EvalSymlinks` resolves paths to, and the matches
    of the glob patterns it uses. Writing a file is the one operation that changes it. */
module SysFs {
  import opened Types

  class FileSystem {
    /** The readable regular files and their contents. */
    var files: map<string, string>
    /** Paths whose reads and writes fail, with the error number reported. */
    var denied: map<string, Errno>
    /** What `os.Readlink` returns for each symbolic link. */
    var links: map<string, string>
    /** What `filepath.EvalSymlinks` returns for each path that resolves. */
    var resolved: map<string, string>
    /** What `filepath.Glob` returns for each pattern, in lexical order. */
    var globs: map<string, seq<string>>

    constructor (files: map<string, string>, denied: map<string, Errno>, links: map<string, string>,
                 resolved: map<string, string>, globs: map<string, seq<string>>)
      ensures this.files == files && this.denied == denied && this.links == links
      ensures this.resolved == resolved && this.globs == globs
    {
      this.files := files;
      this.denied := denied;
      this.links := links;
      this.resolved := resolved;
      this.globs := globs;
    }
  }

  /** `os.ReadFile`: a refused path fails with its error number, a missing one with
      ENOENT. */
  function ReadFile(fs: FileSystem, path: string): (r: Result<string>)
    reads fs
    ensures r.Ok? <==> path !in fs.denied && path in fs.files
    ensures r.Ok? ==> r.value == fs.files[path]
    ensures path in fs.denied ==> r == Err(Sys(fs.denied[path]))
  {
    if path in fs.denied then Err(Sys(fs.denied[path]))
    else if path in fs.files then Ok(fs.files[path])
    else Err(Sys(ENOENT))
  }

  /** `os.WriteFile`: a refused path reports its error number and nothing changes;
      otherwise the file holds exactly `data` afterwards. */
  method WriteFile(fs: FileSystem, path: string, data: string) returns (err: MaybeError)
    modifies fs
    ensures path in old(fs.denied) ==> err == Some(Sys(old(fs.denied)[path])) && fs.files == old(fs.files)
    ensures path !in old(fs.denied) ==> err == None && fs.files == old(fs.files)[path := data]
    ensures fs.denied == old(fs.denied) && fs.links == old(fs.links)
    ensures fs.resolved == old(fs.resolved) && fs.globs == old(fs.globs)
  {
    if path in fs.denied {
      return Some(Sys(fs.denied[path]));
    }
    fs.files := fs.files[path := data];
    err := None;
  }

  /** `os.Readlink`: the raw target of a symbolic link; EINVAL for anything else. */
  function Readlink(fs: FileSystem, path: string): (r: Result<string>)
    reads fs
    ensures r.Ok? <==> path in fs.links
    ensures r.Ok? ==> r.value == fs.links[path]
  {
    if path in fs.links then Ok(fs.links[path]) else Err(Sys(EINVAL))
  }

  /** `filepath.EvalSymlinks`: the resolved path; ENOENT for a path that does not
      resolve. */
  function EvalSymlinks(fs: FileSystem, path: string): (r: Result<string>)
    reads fs
    ensures r.Ok? <==> path in fs.resolved
    ensures r.Ok? ==> r.value == fs.resolved[path]
  {
    if path in fs.resolved then Ok(fs.resolved[path]) else Err(Sys(ENOENT))
  }

  /** `filepath.Glob` of a well-formed pattern: its matches, none when nothing
      matches. */
  function Glob(fs: FileSystem, pattern: string): (paths: seq<string>)
    reads fs
    ensures pattern !in fs.globs ==> paths == []
    ensures pattern in fs.globs ==> paths == fs.globs[pattern]
  {
    if pattern in fs.globs then fs.globs[pattern] else []
  }
}
