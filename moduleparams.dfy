/** module_params_linux.go: the xpad kernel module's four boolean parameters, read
    from and written to the files under /sys/module/xpad/parameters. */
module ModuleParams {
  import opened Types
  import opened Text
  import opened SysFs

  /** ModuleParams: the tunable parameters of the xpad module. */
  datatype Params = Params(dpadToButtons: bool, triggersToButtons: bool, sticksToNull: bool, autoPowerOff: bool)

  /** One parameter, each backed by a file of its own. */
  datatype Param = DpadToButtons | TriggersToButtons | SticksToNull | AutoPowerOff

  /** The order in which GetModuleParams and SetModuleParams visit the parameters. */
  const Order: seq<Param> := [DpadToButtons, TriggersToButtons, SticksToNull, AutoPowerOff]

  /** The parameter's file name as the kernel module declares it. */
  function Name(p: Param): (n: string)
    ensures n != [] && forall i :: 0 <= i < |n| ==> n[i] != '/'
  {
    match p
    case DpadToButtons => "dpad_to_buttons"
    case TriggersToButtons => "triggers_to_buttons"
    case SticksToNull => "sticks_to_null"
    case AutoPowerOff => "auto_poweroff"
  }

  /** The parameter's value in a Params record. */
  function Field(params: Params, p: Param): bool
  {
    match p
    case DpadToButtons => params.dpadToButtons
    case TriggersToButtons => params.triggersToButtons
    case SticksToNull => params.sticksToNull
    case AutoPowerOff => params.autoPowerOff
  }

  /** Every parameter is visited once, and a record is determined by its fields. */
  lemma OrderCoversParams(a: Params, b: Params)
    ensures forall p: Param :: p in Order
    ensures (forall i :: 0 <= i < |Order| ==> Field(a, Order[i]) == Field(b, Order[i])) ==> a == b
  {
    forall p: Param
      ensures p in Order
    {
      match p
      case DpadToButtons => assert Order[0] == p;
      case TriggersToButtons => assert Order[1] == p;
      case SticksToNull => assert Order[2] == p;
      case AutoPowerOff => assert Order[3] == p;
    }
    if forall i :: 0 <= i < |Order| ==> Field(a, Order[i]) == Field(b, Order[i]) {
      assert Field(a, Order[0]) == Field(b, Order[0]);
      assert Field(a, Order[1]) == Field(b, Order[1]);
      assert Field(a, Order[2]) == Field(b, Order[2]);
      assert Field(a, Order[3]) == Field(b, Order[3]);
    }
  }

  const ParamDir: string := "/sys/module/xpad/parameters"

  /** paramPath: the parameter's file inside the module's parameter directory. */
  function ParamPath(p: Param): (path: string)
    ensures path == ParamDir + "/" + Name(p)
  {
    Join(ParamDir, Name(p))
  }

  /** A parameter's file is named after the parameter and sits in ParamDir. */
  lemma ParamPathParts(p: Param)
    ensures Base(ParamPath(p)) == Name(p) && Dir(ParamPath(p)) == ParamDir
  {
    BaseOfJoin(ParamDir, Name(p));
    DirOfJoin(ParamDir, Name(p));
  }

  /** Different parameters live in different files. */
  lemma ParamPathsDistinct(p: Param, q: Param)
    requires p != q
    ensures ParamPath(p) != ParamPath(q)
  {
    assert |Name(p)| != |Name(q)|;
  }

  // ---------------------------------------------------------------------------
  // Reading and writing one parameter

  /** The spellings readBoolParam takes for true and for false, compared after
      lowering the case. */
  const TrueTokens: seq<string> := ["y", "yes", "1", "true", "on"]
  const FalseTokens: seq<string> := ["n", "no", "0", "false", "off"]

  /** The parsing half of readBoolParam: `value` is the file's trimmed text. */
  function ParseBool(value: string, path: string): (r: Result<bool>)
    ensures r == Ok(true) <==> ToLower(value) in TrueTokens
    ensures r == Ok(false) <==> ToLower(value) in FalseTokens
    ensures r.Err? <==> ToLower(value) !in TrueTokens + FalseTokens
    ensures r.Err? ==> r.error == BadBoolValue(value, path)
  {
    var token := ToLower(value);
    if token in TrueTokens then Ok(true)
    else if token in FalseTokens then Ok(false)
    else Err(BadBoolValue(value, path))
  }

  /** No spelling means both true and false, and every spelling is lower case. */
  lemma TokensUnambiguous()
    ensures forall t :: t in TrueTokens ==> t !in FalseTokens && ToLower(t) == t
    ensures forall t :: t in FalseTokens ==> ToLower(t) == t
  {
    forall t | t in TrueTokens + FalseTokens
      ensures ToLower(t) == t
    {
      LowerOfLower(t);
    }
  }

  lemma LowerOfLower(t: string)
    requires forall i :: 0 <= i < |t| ==> !('A' <= t[i] <= 'Z')
    ensures ToLower(t) == t
  {
  }

  /** Lowering twice is lowering once. */
  lemma {:induction false} ToLowerIdempotent(s: string)
    ensures ToLower(ToLower(s)) == ToLower(s)
  {
    var l := ToLower(s);
    forall i | 0 <= i < |l|
      ensures ToLower(l)[i] == l[i]
    {
      assert l[i] == Lower(s[i]);
    }
  }

  /** Case does not matter: a value and its lower-case form parse to the same
      boolean, and one is rejected exactly when the other is. */
  lemma ParseBoolIgnoresCase(value: string, path: string)
    ensures ParseBool(value, path).Ok? <==> ParseBool(ToLower(value), path).Ok?
    ensures ParseBool(value, path).Ok? ==> ParseBool(value, path) == ParseBool(ToLower(value), path)
  {
    ToLowerIdempotent(value);
  }

  /** readBoolParam: the filesystem's error for an unreadable file, otherwise the
      trimmed text parsed, with the path in the error for an unknown spelling. */
  function ReadBoolParam(fs: FileSystem, path: string): (r: Result<bool>)
    reads fs
    ensures ReadFile(fs, path).Err? ==> r == Err(ReadFile(fs, path).error)
    ensures ReadFile(fs, path).Ok? ==> r == ParseBool(TrimSpace(ReadFile(fs, path).value), path)
  {
    match ReadFile(fs, path)
    case Err(e) => Err(e)
    case Ok(data) => ParseBool(TrimSpace(data), path)
  }

  /** A file holding a known spelling between any white space reads as that
      spelling's value. */
  lemma ReadBoolParamPadded(fs: FileSystem, path: string, pre: string, token: string, post: string)
    requires ReadFile(fs, path) == Ok(pre + token + post)
    requires AllSpace(pre) && AllSpace(post) && Trimmed(token)
    ensures ReadBoolParam(fs, path) == ParseBool(token, path)
  {
    TrimSpaceAround(pre, token, post);
  }

  /** The kernel shows a bool parameter as `Y` or `N` and a newline. */
  lemma ReadsKernelBool(fs: FileSystem, path: string)
    ensures ReadFile(fs, path) == Ok("Y\n") ==> ReadBoolParam(fs, path) == Ok(true)
    ensures ReadFile(fs, path) == Ok("N\n") ==> ReadBoolParam(fs, path) == Ok(false)
  {
    assert "Y\n" == [] + "Y" + "\n";
    assert "N\n" == [] + "N" + "\n";
    if ReadFile(fs, path) == Ok("Y\n") {
      ReadBoolParamPadded(fs, path, [], "Y", "\n");
      assert ToLower("Y") == "y";
    }
    if ReadFile(fs, path) == Ok("N\n") {
      ReadBoolParamPadded(fs, path, [], "N", "\n");
      assert ToLower("N") == "n";
    }
  }

  /** Surrounding blanks and mixed case are accepted. */
  lemma ReadsPaddedMixedCase(fs: FileSystem, path: string)
    requires ReadFile(fs, path) == Ok(" On\n")
    ensures ReadBoolParam(fs, path) == Ok(true)
  {
    assert " On\n" == " " + "On" + "\n";
    ReadBoolParamPadded(fs, path, " ", "On", "\n");
    assert ToLower("On") == "on";
  }

  lemma ReadsUpperCase(fs: FileSystem, path: string)
    requires ReadFile(fs, path) == Ok("FALSE")
    ensures ReadBoolParam(fs, path) == Ok(false)
  {
    TrimSpaceOfTrimmed("FALSE");
    assert ToLower("FALSE") == "false";
  }

  /** An empty file and a number other than 0 or 1 are rejected, and the error
      quotes the trimmed text. */
  lemma RejectsOtherText(fs: FileSystem, path: string)
    ensures ReadFile(fs, path) == Ok("") ==> ReadBoolParam(fs, path) == Err(BadBoolValue("", path))
    ensures ReadFile(fs, path) == Ok("2\n") ==> ReadBoolParam(fs, path) == Err(BadBoolValue("2", path))
  {
    if ReadFile(fs, path) == Ok("") {
      assert "" == [] + [] + [];
      ReadBoolParamPadded(fs, path, [], [], []);
      assert ToLower("") == "";
    }
    if ReadFile(fs, path) == Ok("2\n") {
      assert "2\n" == [] + "2" + "\n";
      ReadBoolParamPadded(fs, path, [], "2", "\n");
      assert ToLower("2") == "2";
    }
  }

  /** The text writeBoolParam stores: `1` for true, `0` for false. */
  function BoolText(value: bool): (text: string)
    ensures Trimmed(text) && |text| == 1
  {
    if value then "1" else "0"
  }

  /** What writeBoolParam stores, readBoolParam reads back. */
  lemma BoolTextParses(value: bool, path: string)
    ensures ParseBool(TrimSpace(BoolText(value)), path) == Ok(value)
  {
    TrimSpaceOfTrimmed(BoolText(value));
    if value {
      assert ToLower("1") == "1";
    } else {
      assert ToLower("0") == "0";
    }
  }

  /** writeBoolParam: the file holds `1` or `0` afterwards, unless the system
      refuses the write (BoolTextParses: what it writes reads back as the value). */
  method WriteBoolParam(fs: FileSystem, path: string, value: bool) returns (err: MaybeError)
    modifies fs
    ensures path in old(fs.denied) ==> err == Some(Sys(old(fs.denied)[path])) && fs.files == old(fs.files)
    ensures path !in old(fs.denied) ==> err == None && fs.files == old(fs.files)[path := BoolText(value)]
    ensures fs.denied == old(fs.denied) && fs.links == old(fs.links)
    ensures fs.resolved == old(fs.resolved) && fs.globs == old(fs.globs)
  {
    var text := if value then "1" else "0";
    err := WriteFile(fs, path, text);
  }

  // ---------------------------------------------------------------------------
  // The per-parameter accessors

  /** GetDpadToButtons, GetTriggersToButtons, GetSticksToNull, GetAutoPowerOff:
      readBoolParam on the parameter's file. */
  function GetParam(fs: FileSystem, p: Param): (r: Result<bool>)
    reads fs
    ensures ReadFile(fs, ParamPath(p)).Err? ==> r == Err(ReadFile(fs, ParamPath(p)).error)
    ensures ReadFile(fs, ParamPath(p)).Ok? ==> r.Err? ==> r.error.BadBoolValue?
  {
    ReadBoolParam(fs, ParamPath(p))
  }

  /** A parameter file holding `1` or `0` reads as true or false. */
  lemma GetParamOfWritten(fs: FileSystem, p: Param, value: bool)
    requires ReadFile(fs, ParamPath(p)) == Ok(BoolText(value))
    ensures GetParam(fs, p) == Ok(value)
  {
    BoolTextParses(value, ParamPath(p));
  }

  /** SetDpadToButtons, SetTriggersToButtons, SetSticksToNull, SetAutoPowerOff:
      writes the parameter's own file and no other, so every other parameter reads
      as it did before. */
  method SetParam(fs: FileSystem, p: Param, value: bool) returns (err: MaybeError)
    modifies fs
    ensures ParamPath(p) in old(fs.denied) ==> err == Some(Sys(old(fs.denied)[ParamPath(p)])) && fs.files == old(fs.files)
    ensures ParamPath(p) !in old(fs.denied) ==> err == None && fs.files == old(fs.files)[ParamPath(p) := BoolText(value)]
    ensures fs.denied == old(fs.denied) && fs.links == old(fs.links)
    ensures fs.resolved == old(fs.resolved) && fs.globs == old(fs.globs)
    ensures err.None? ==> GetParam(fs, p) == Ok(value)
    ensures forall q :: q != p ==> GetParam(fs, q) == old(GetParam(fs, q))
  {
    err := WriteBoolParam(fs, ParamPath(p), value);
    if err.None? {
      GetParamOfWritten(fs, p, value);
    }
    forall q | q != p
      ensures GetParam(fs, q) == old(GetParam(fs, q))
    {
      ParamPathsDistinct(p, q);
      assert ReadFile(fs, ParamPath(q)) == old(ReadFile(fs, ParamPath(q)));
    }
  }

  // ---------------------------------------------------------------------------
  // All four parameters

  /** GetModuleParams: the four parameters in order; the first one that cannot be
      read or parsed ends the read with its error. */
  function GetModuleParams(fs: FileSystem): (r: Result<Params>)
    reads fs
    ensures r.Ok? <==> GetParam(fs, DpadToButtons).Ok? && GetParam(fs, TriggersToButtons).Ok? &&
                       GetParam(fs, SticksToNull).Ok? && GetParam(fs, AutoPowerOff).Ok?
    ensures r.Ok? ==> r.value == Params(GetParam(fs, DpadToButtons).value, GetParam(fs, TriggersToButtons).value,
                                        GetParam(fs, SticksToNull).value, GetParam(fs, AutoPowerOff).value)
    ensures GetParam(fs, DpadToButtons).Err? ==> r == Err(GetParam(fs, DpadToButtons).error)
    ensures GetParam(fs, DpadToButtons).Ok? && GetParam(fs, TriggersToButtons).Err? ==>
      r == Err(GetParam(fs, TriggersToButtons).error)
    ensures (GetParam(fs, DpadToButtons).Ok? && GetParam(fs, TriggersToButtons).Ok? &&
             GetParam(fs, SticksToNull).Err?) ==> r == Err(GetParam(fs, SticksToNull).error)
    ensures (GetParam(fs, DpadToButtons).Ok? && GetParam(fs, TriggersToButtons).Ok? &&
             GetParam(fs, SticksToNull).Ok? && GetParam(fs, AutoPowerOff).Err?) ==>
      r == Err(GetParam(fs, AutoPowerOff).error)
  {
    match GetParam(fs, DpadToButtons)
    case Err(e) => Err(e)
    case Ok(dpad) =>
      match GetParam(fs, TriggersToButtons)
      case Err(e) => Err(e)
      case Ok(triggers) =>
        match GetParam(fs, SticksToNull)
        case Err(e) => Err(e)
        case Ok(sticks) =>
          match GetParam(fs, AutoPowerOff)
          case Err(e) => Err(e)
          case Ok(power) => Ok(Params(dpad, triggers, sticks, power))
  }

  /** The position in Order of the first parameter whose file the system refuses to
      write, or 4 when it refuses none. */
  function FirstDenied(denied: map<string, Errno>, from: nat): (k: nat)
    requires from <= |Order|
    ensures from <= k <= |Order|
    ensures forall i :: from <= i < k ==> ParamPath(Order[i]) !in denied
    ensures k < |Order| ==> ParamPath(Order[k]) in denied
    decreases |Order| - from
  {
    if from == |Order| then from
    else if ParamPath(Order[from]) in denied then from
    else FirstDenied(denied, from + 1)
  }

  /** The files after the first k parameters of Order have been written. */
  function Written(files: map<string, string>, params: Params, k: nat): map<string, string>
    requires k <= |Order|
  {
    if k == 0 then files
    else Written(files, params, k - 1)[ParamPath(Order[k - 1]) := BoolText(Field(params, Order[k - 1]))]
  }

  /** After the first k writes, each parameter written holds its value's text. */
  lemma {:induction false} WrittenHolds(files: map<string, string>, params: Params, k: nat)
    requires k <= |Order|
    ensures forall i :: 0 <= i < k ==> ParamPath(Order[i]) in Written(files, params, k)
    ensures forall i :: 0 <= i < k ==> Written(files, params, k)[ParamPath(Order[i])] == BoolText(Field(params, Order[i]))
  {
    if k > 0 {
      WrittenHolds(files, params, k - 1);
      forall i | 0 <= i < k - 1
        ensures ParamPath(Order[i]) != ParamPath(Order[k - 1])
      {
        ParamPathsDistinct(Order[i], Order[k - 1]);
      }
    }
  }

  /** Writing the parameters leaves every other file as it was. */
  lemma {:induction false} WrittenKeeps(files: map<string, string>, params: Params, k: nat, path: string)
    requires k <= |Order|
    requires forall i :: 0 <= i < k ==> path != ParamPath(Order[i])
    ensures path in Written(files, params, k) <==> path in files
    ensures path in files ==> Written(files, params, k)[path] == files[path]
  {
    if k > 0 {
      WrittenKeeps(files, params, k - 1, path);
    }
  }

  /** SetModuleParams: writes the four parameters in order and stops at the first
      refused write, whose error it returns; the parameters before it are written,
      the rest are not. When every write succeeds, the parameters read back as
      given. */
  method SetModuleParams(fs: FileSystem, params: Params) returns (err: MaybeError)
    modifies fs
    ensures var k := FirstDenied(old(fs.denied), 0);
      && fs.files == Written(old(fs.files), params, k)
      && (k < |Order| ==> err == Some(Sys(old(fs.denied)[ParamPath(Order[k])])))
      && (k == |Order| ==> err == None)
    ensures fs.denied == old(fs.denied) && fs.links == old(fs.links)
    ensures fs.resolved == old(fs.resolved) && fs.globs == old(fs.globs)
    ensures err.None? ==> GetModuleParams(fs) == Ok(params)
  {
    ghost var denied := fs.denied;
    ghost var files := fs.files;
    assert FirstDenied(denied, 0) == if ParamPath(Order[0]) in denied then 0 else FirstDenied(denied, 1);
    err := WriteBoolParam(fs, ParamPath(DpadToButtons), params.dpadToButtons);
    if err.Some? {
      return;
    }
    assert fs.files == Written(files, params, 1);
    assert FirstDenied(denied, 1) == if ParamPath(Order[1]) in denied then 1 else FirstDenied(denied, 2);
    err := WriteBoolParam(fs, ParamPath(TriggersToButtons), params.triggersToButtons);
    if err.Some? {
      return;
    }
    assert fs.files == Written(files, params, 2);
    assert FirstDenied(denied, 2) == if ParamPath(Order[2]) in denied then 2 else FirstDenied(denied, 3);
    err := WriteBoolParam(fs, ParamPath(SticksToNull), params.sticksToNull);
    if err.Some? {
      return;
    }
    assert fs.files == Written(files, params, 3);
    assert FirstDenied(denied, 3) == if ParamPath(Order[3]) in denied then 3 else FirstDenied(denied, 4);
    err := WriteBoolParam(fs, ParamPath(AutoPowerOff), params.autoPowerOff);
    if err.Some? {
      return;
    }
    assert fs.files == Written(files, params, 4);
    WrittenHolds(files, params, 4);
    GetParamOfWritten(fs, Order[0], params.dpadToButtons);
    GetParamOfWritten(fs, Order[1], params.triggersToButtons);
    GetParamOfWritten(fs, Order[2], params.sticksToNull);
    GetParamOfWritten(fs, Order[3], params.autoPowerOff);
  }
}
