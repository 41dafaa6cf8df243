/** discovery_linux.go: listing the evdev nodes under /dev/input, describing each
    from sysfs, cross-referencing the joystick and LED nodes that share its backing
    device, and picking out the xpad controllers. */
module Discovery {
  import opened Types
  import opened Text
  import opened SysFs
  import opened Info
  import Xpad
  import FileOpen

  const JsPattern: string := "/sys/class/input/js*"
  const LedPattern: string := "/sys/class/leds/xpad*"
  const EventPattern: string := "/dev/input/event*"
  const InputClassDir: string := "/sys/class/input"
  const JsDevDir: string := "/dev/input"

  // ---------------------------------------------------------------------------
  // Reading sysfs attributes

  /** readTrimmedFile: the file's text without surrounding white space, or "" when
      it cannot be read. */
  function ReadTrimmedFile(fs: FileSystem, path: string): (s: string)
    reads fs
    ensures Trimmed(s)
    ensures ReadFile(fs, path).Err? ==> s == ""
  {
    match ReadFile(fs, path)
    case Err(_) => ""
    case Ok(data) => TrimSpace(data)
  }

  /** An attribute file holds its value followed by white space (sysfs ends each
      value with a newline): readTrimmedFile returns the value. */
  lemma ReadTrimmedAttribute(fs: FileSystem, path: string, value: string, post: string)
    requires ReadFile(fs, path) == Ok(value + post)
    requires Trimmed(value) && AllSpace(post)
    ensures ReadTrimmedFile(fs, path) == value
  {
    assert value + post == [] + value + post;
    TrimSpaceAround([], value, post);
  }

  /** readHexUint16: hexadecimal first; if that fails, Go's prefixed base-0 syntax;
      nothing for an unreadable or blank file or for a value over 0xffff in both. */
  function ReadHexUint16(fs: FileSystem, path: string): (r: Option<uint16>)
    reads fs
    ensures ReadFile(fs, path).Err? ==> r == None
    ensures ReadFile(fs, path).Ok? && TrimSpace(ReadFile(fs, path).value) == "" ==> r == None
    ensures ReadFile(fs, path).Ok? && ParseHex16(TrimSpace(ReadFile(fs, path).value)).Some? ==>
      r == ParseHex16(TrimSpace(ReadFile(fs, path).value))
    ensures ReadFile(fs, path).Ok? && ParseHex16(TrimSpace(ReadFile(fs, path).value)).None? ==>
      r == ParseBase0Uint16(TrimSpace(ReadFile(fs, path).value))
  {
    match ReadFile(fs, path)
    case Err(_) => None
    case Ok(data) =>
      var text := TrimSpace(data);
      if text == "" then None
      else
        match ParseHex16(text)
        case Some(v) => Some(v)
        case None => ParseBase0Uint16(text)
  }

  /** A lower-case hexadecimal digit. */
  function HexDigit(d: nat): (c: char)
    requires d < 16
    ensures DigitValue(c) == d
  {
    if d < 10 then ('0' as int + d) as char else ('a' as int + d - 10) as char
  }

  /** `%04x`, the way the kernel writes the id attributes. */
  function Hex4(v: uint16): (s: string)
    ensures |s| == 4 && Trimmed(s)
  {
    [HexDigit(v / 0x1000), HexDigit(v / 0x100 % 16), HexDigit(v / 16 % 16), HexDigit(v % 16)]
  }

  lemma {:induction false} Hex4Value(v: uint16)
    ensures DigitsIn(Hex4(v), 16) && DigitsValue(Hex4(v), 16) == v
  {
    var s := Hex4(v);
    assert PrefixValue(s, 16, 1) == v / 0x1000;
    assert PrefixValue(s, 16, 2) == v / 0x100;
    assert PrefixValue(s, 16, 3) == v / 16;
  }

  /** An id attribute as the kernel writes it, four hexadecimal digits and a newline,
      reads back as its value. */
  lemma ReadsKernelId(fs: FileSystem, path: string, v: uint16)
    requires ReadFile(fs, path) == Ok(Hex4(v) + "\n")
    ensures ReadHexUint16(fs, path) == Some(v)
  {
    assert Hex4(v) + "\n" == [] + Hex4(v) + "\n";
    assert AllSpace("\n");
    TrimSpaceAround([], Hex4(v), "\n");
    Hex4Value(v);
  }

  /** The fallback reads a prefixed value: "0x1f" is not bare hexadecimal, and base 0
      reads it as 31. */
  lemma ReadsPrefixedHex(fs: FileSystem, path: string)
    requires ReadFile(fs, path) == Ok("0x1f")
    ensures ReadHexUint16(fs, path) == Some(31)
  {
    TrimSpaceOfTrimmed("0x1f");
    assert !DigitsIn("0x1f", 16) by { assert DigitValue("0x1f"[1]) == 33; }
    assert "0x1f"[2..] == "1f";
    assert DigitsValue("1f", 16) == 31 by { assert PrefixValue("1f", 16, 1) == 1; }
  }

  /** Five hexadecimal digits over 0xffff are out of range in base 16, and the base-0
      fallback then reads them as decimal: "12345" gives 12345, not an error. */
  lemma OverflowingHexReadsAsDecimal(fs: FileSystem, path: string)
    requires ReadFile(fs, path) == Ok("12345")
    ensures ReadHexUint16(fs, path) == Some(12345)
  {
    var s := "12345";
    TrimSpaceOfTrimmed(s);
    assert DigitsValue(s, 16) == 0x12345 by { DigitsValueOf12345(16); }
    assert DigitsValue(s, 10) == 12345 by { DigitsValueOf12345(10); }
  }

  /** The value of the digits "12345" in a base of at least 6, spelled out. */
  lemma DigitsValueOf12345(base: nat)
    requires 6 <= base
    ensures DigitsIn("12345", base)
    ensures DigitsValue("12345", base) == (((1 * base + 2) * base + 3) * base + 4) * base + 5
  {
    var s := "12345";
    assert PrefixValue(s, base, 1) == 1;
    assert PrefixValue(s, base, 2) == 1 * base + 2;
    assert PrefixValue(s, base, 3) == (1 * base + 2) * base + 3;
    assert PrefixValue(s, base, 4) == ((1 * base + 2) * base + 3) * base + 4;
  }

  /** readLinkBase: the last element of a symbolic link's target, or "". */
  function ReadLinkBase(fs: FileSystem, path: string): (s: string)
    reads fs
    ensures Readlink(fs, path).Err? ==> s == ""
    ensures Readlink(fs, path).Ok? ==> s == Base(fs.links[path]) && s != ""
  {
    match Readlink(fs, path)
    case Err(_) => ""
    case Ok(link) => Base(link)
  }

  /** The driver link points into the driver's directory, so its base is the driver
      name: "../../../bus/usb/drivers/xpad" gives "xpad". */
  lemma DriverName(fs: FileSystem, path: string, dir: string, name: string)
    requires path in fs.links && fs.links[path] == Join(dir, name)
    requires name != [] && forall i :: 0 <= i < |name| ==> name[i] != '/'
    ensures ReadLinkBase(fs, path) == name
  {
    BaseOfJoin(dir, name);
  }

  // ---------------------------------------------------------------------------
  // Sibling maps

  /** The sysfs link to a node's backing device. */
  function DeviceLink(sysfs: string): string { Join(sysfs, "device") }

  /** What mapSysfsDevices records for a sysfs node: the device node under
      `devPrefix` with the same name, or the sysfs path itself when there is no
      prefix. */
  function MapTarget(sysfs: string, devPrefix: string): (t: string)
    ensures devPrefix == "" ==> t == sysfs
    ensures devPrefix != "" ==> t == Join(devPrefix, Base(sysfs))
  {
    if devPrefix != "" then Join(devPrefix, Base(sysfs)) else sysfs
  }

  /** The map mapSysfsDevices builds from `paths`, one entry at a time in order. */
  function SysfsMap(fs: FileSystem, paths: seq<string>, devPrefix: string): map<string, string>
    reads fs
  {
    if paths == [] then map[]
    else
      var m := SysfsMap(fs, paths[..|paths| - 1], devPrefix);
      var sysfs := paths[|paths| - 1];
      match EvalSymlinks(fs, DeviceLink(sysfs))
      case Err(_) => m
      case Ok(resolved) => m[resolved := MapTarget(sysfs, devPrefix)]
  }

  /** The keys are exactly the resolved backing devices; unresolved nodes are
      skipped. */
  lemma {:induction false} SysfsMapKeys(fs: FileSystem, paths: seq<string>, devPrefix: string, key: string)
    ensures key in SysfsMap(fs, paths, devPrefix) <==>
      exists i :: 0 <= i < |paths| && EvalSymlinks(fs, DeviceLink(paths[i])) == Ok(key)
  {
    if paths != [] {
      var init := paths[..|paths| - 1];
      SysfsMapKeys(fs, init, devPrefix, key);
      if exists i :: 0 <= i < |init| && EvalSymlinks(fs, DeviceLink(init[i])) == Ok(key) {
        var i :| 0 <= i < |init| && EvalSymlinks(fs, DeviceLink(init[i])) == Ok(key);
        assert paths[i] == init[i];
      }
      if exists i :: 0 <= i < |paths| && EvalSymlinks(fs, DeviceLink(paths[i])) == Ok(key) {
        var i :| 0 <= i < |paths| && EvalSymlinks(fs, DeviceLink(paths[i])) == Ok(key);
        if i < |init| {
          assert init[i] == paths[i];
        }
      }
    }
  }

  /** A later node with the same backing device overwrites an earlier one: the entry
      comes from the last node that resolves to the key. */
  lemma {:induction false} SysfsMapLastWins(fs: FileSystem, paths: seq<string>, devPrefix: string, i: nat, key: string)
    requires i < |paths| && EvalSymlinks(fs, DeviceLink(paths[i])) == Ok(key)
    requires forall j :: i < j < |paths| ==> EvalSymlinks(fs, DeviceLink(paths[j])) != Ok(key)
    ensures key in SysfsMap(fs, paths, devPrefix)
    ensures SysfsMap(fs, paths, devPrefix)[key] == MapTarget(paths[i], devPrefix)
  {
    var init := paths[..|paths| - 1];
    if i < |paths| - 1 {
      forall j | i < j < |init| ensures EvalSymlinks(fs, DeviceLink(init[j])) != Ok(key) {
        assert init[j] == paths[j];
      }
      assert init[i] == paths[i];
      SysfsMapLastWins(fs, init, devPrefix, i, key);
    }
  }

  /** mapSysfsDevices: for each node matching the pattern whose device link
      resolves, the resolved backing device maps to the node's target. */
  method MapSysfsDevices(fs: FileSystem, pattern: string, devPrefix: string) returns (mapping: map<string, string>)
    ensures mapping == SysfsMap(fs, Glob(fs, pattern), devPrefix)
  {
    var paths := Glob(fs, pattern);
    mapping := map[];
    var i := 0;
    while i < |paths|
      invariant 0 <= i <= |paths|
      invariant mapping == SysfsMap(fs, paths[..i], devPrefix)
    {
      var sysfs := paths[i];
      assert paths[..i + 1][..i] == paths[..i];
      var resolved := EvalSymlinks(fs, Join(sysfs, "device"));
      if resolved.Ok? {
        var base := Base(sysfs);
        if devPrefix != "" {
          mapping := mapping[resolved.value := Join(devPrefix, base)];
        } else {
          mapping := mapping[resolved.value := sysfs];
        }
      }
      i := i + 1;
    }
    assert paths[..i] == paths;
  }

  /** The joystick map: backing device to /dev/input/jsN. */
  function JsMap(fs: FileSystem): map<string, string>
    reads fs
  {
    SysfsMap(fs, Glob(fs, JsPattern), JsDevDir)
  }

  /** The LED map: backing device to /sys/class/leds/xpadN. */
  function LedMap(fs: FileSystem): map<string, string>
    reads fs
  {
    SysfsMap(fs, Glob(fs, LedPattern), "")
  }

  // ---------------------------------------------------------------------------
  // Describing one event node

  /** `filepath.Join(dir, name)` where `dir` does not end in a slash and `name` is
      one non-empty element: the two with a slash between them. */
  function Child(dir: string, name: string): (p: string)
    ensures |p| == |dir| + 1 + |name| && p[|dir|] == '/'
  {
    dir + "/" + name
  }

  lemma ChildIsJoin(dir: string, name: string)
    requires dir != [] && dir[|dir| - 1] != '/' && name != []
    ensures Child(dir, name) == Join(dir, name)
  {
  }

  /** The sysfs directory of an event node: its name under /sys/class/input. */
  function SysfsDir(path: string): string
  {
    Child(InputClassDir, Base(path))
  }

  /** The sysfs directory is the one filepath.Join builds, whenever the node's path
      ends in a name. */
  lemma SysfsDirIsJoin(path: string)
    ensures SysfsDir(path) == Join(InputClassDir, Base(path))
  {
  }

  function IdOr0(v: Option<uint16>): uint16 { if v.Some? then v.value else 0 }

  /** The DeviceInfo ListDevices builds for one event node. */
  function InfoFor(fs: FileSystem, path: string, jsMap: map<string, string>, ledMap: map<string, string>): (info: DeviceInfo)
    reads fs
  {
    var sysfs := SysfsDir(path);
    var devPath := Child(sysfs, "device");
    var res := EvalSymlinks(fs, devPath);
    var found := res.Ok?;
    var key := if found then res.value else "";
    var idDir := Child(devPath, "id");
    DeviceInfo(
      path, sysfs,
      key,
      if found && key in jsMap then jsMap[key] else "",
      if found && key in ledMap then ledMap[key] else "",
      if found && key in ledMap then Join(ledMap[key], "brightness") else "",
      ReadTrimmedFile(fs, Child(devPath, "name")),
      ReadTrimmedFile(fs, Child(devPath, "phys")),
      ReadTrimmedFile(fs, Child(devPath, "uniq")),
      ReadLinkBase(fs, Child(devPath, "driver")),
      IdOr0(ReadHexUint16(fs, Child(idDir, "bustype"))),
      IdOr0(ReadHexUint16(fs, Child(idDir, "vendor"))),
      IdOr0(ReadHexUint16(fs, Child(idDir, "product"))),
      IdOr0(ReadHexUint16(fs, Child(idDir, "version"))))
  }

  /** Where each field of a node's description comes from: its path, its sysfs
      directory, the backing device the `device` link resolves to and the joystick
      and LED nodes mapped to it (empty when there are none), and the trimmed
      attribute texts. */
  lemma InfoForFields(fs: FileSystem, path: string, jsMap: map<string, string>, ledMap: map<string, string>)
    ensures InfoFor(fs, path, jsMap, ledMap).path == path && InfoFor(fs, path, jsMap, ledMap).sysfsPath == SysfsDir(path)
    ensures
      var res := EvalSymlinks(fs, Child(InfoFor(fs, path, jsMap, ledMap).sysfsPath, "device"));
      && InfoFor(fs, path, jsMap, ledMap).devicePath == (if res.Ok? then res.value else "")
      && InfoFor(fs, path, jsMap, ledMap).joystickPath == (if res.Ok? && res.value in jsMap then jsMap[res.value] else "")
      && InfoFor(fs, path, jsMap, ledMap).ledPath == (if res.Ok? && res.value in ledMap then ledMap[res.value] else "")
      && InfoFor(fs, path, jsMap, ledMap).ledBrightnessPath == (if res.Ok? && res.value in ledMap then Join(ledMap[res.value], "brightness") else "")
    ensures Trimmed(InfoFor(fs, path, jsMap, ledMap).name) && Trimmed(InfoFor(fs, path, jsMap, ledMap).phys) && Trimmed(InfoFor(fs, path, jsMap, ledMap).uniq)
  {
  }

  /** The body of ListDevices' loop, one step at a time as the library takes them. */
  method Describe(fs: FileSystem, path: string, jsMap: map<string, string>, ledMap: map<string, string>)
    returns (info: DeviceInfo)
    ensures info == InfoFor(fs, path, jsMap, ledMap)
  {
    var base := Base(path);
    var sysfs := Child(InputClassDir, base);
    info := Blank.(path := path, sysfsPath := sysfs);
    var devPath := Child(sysfs, "device");
    var resolved := EvalSymlinks(fs, devPath);
    if resolved.Ok? {
      info := info.(devicePath := resolved.value);
      if resolved.value in jsMap {
        info := info.(joystickPath := jsMap[resolved.value]);
      }
      if resolved.value in ledMap {
        var ledPath := ledMap[resolved.value];
        info := info.(ledPath := ledPath, ledBrightnessPath := Join(ledPath, "brightness"));
      }
    }
    info := info.(name := ReadTrimmedFile(fs, Child(devPath, "name")));
    info := info.(phys := ReadTrimmedFile(fs, Child(devPath, "phys")));
    info := info.(uniq := ReadTrimmedFile(fs, Child(devPath, "uniq")));
    info := info.(driver := ReadLinkBase(fs, Child(devPath, "driver")));
    var idDir := Child(devPath, "id");
    var v := ReadHexUint16(fs, Child(idDir, "bustype"));
    if v.Some? {
      info := info.(busType := v.value);
    }
    v := ReadHexUint16(fs, Child(idDir, "vendor"));
    if v.Some? {
      info := info.(vendorID := v.value);
    }
    v := ReadHexUint16(fs, Child(idDir, "product"));
    if v.Some? {
      info := info.(productID := v.value);
    }
    v := ReadHexUint16(fs, Child(idDir, "version"));
    if v.Some? {
      info := info.(versionID := v.value);
    }
  }

  // ---------------------------------------------------------------------------
  // Sorting by path

  predicate SortedByPath(s: seq<DeviceInfo>)
  {
    forall i, j :: 0 <= i < j < |s| ==> !LexLess(s[j].path, s[i].path)
  }

  /** Not-less is transitive, because the order is total. */
  lemma NotLessTransitive(a: string, b: string, c: string)
    requires !LexLess(b, a) && !LexLess(c, b)
    ensures !LexLess(c, a)
  {
    LexLessTotal(a, b);
    if LexLess(c, a) && LexLess(a, b) {
      LexLessTransitive(c, a, b);
    }
  }

  function Insert(x: DeviceInfo, s: seq<DeviceInfo>): (r: seq<DeviceInfo>)
    ensures |r| == |s| + 1
  {
    if s == [] then [x]
    else if !LexLess(s[0].path, x.path) then [x] + s
    else [s[0]] + Insert(x, s[1..])
  }

  lemma {:induction false} InsertPermutes(x: DeviceInfo, s: seq<DeviceInfo>)
    ensures multiset(Insert(x, s)) == multiset(s) + multiset{x}
  {
    if s != [] && LexLess(s[0].path, x.path) {
      InsertPermutes(x, s[1..]);
      assert s == [s[0]] + s[1..];
    }
  }

  lemma {:induction false} InsertSorted(x: DeviceInfo, s: seq<DeviceInfo>)
    requires SortedByPath(s)
    ensures SortedByPath(Insert(x, s))
  {
    if s == [] {
    } else if !LexLess(s[0].path, x.path) {
      var r := [x] + s;
      forall i, j | 0 <= i < j < |r| ensures !LexLess(r[j].path, r[i].path) {
        if i == 0 {
          assert r[j] == s[j - 1];
          if j > 1 {
            NotLessTransitive(x.path, s[0].path, s[j - 1].path);
          }
        } else {
          assert r[i] == s[i - 1] && r[j] == s[j - 1];
        }
      }
    } else {
      var t := s[1..];
      assert SortedByPath(t) by {
        forall i, j | 0 <= i < j < |t| ensures !LexLess(t[j].path, t[i].path) {
          assert t[i] == s[i + 1] && t[j] == s[j + 1];
        }
      }
      InsertSorted(x, t);
      InsertPermutes(x, t);
      var r := [s[0]] + Insert(x, t);
      forall i, j | 0 <= i < j < |r| ensures !LexLess(r[j].path, r[i].path) {
        if i == 0 {
          var y := r[j];
          assert y in multiset(Insert(x, t)) by { assert y == Insert(x, t)[j - 1]; }
          if y == x {
            LexLessAsymmetric(s[0].path, x.path);
          } else {
            assert y in multiset(t);
            var k :| 0 <= k < |t| && t[k] == y;
            assert y == s[k + 1];
          }
        } else {
          assert r[i] == Insert(x, t)[i - 1] && r[j] == Insert(x, t)[j - 1];
        }
      }
    }
  }

  /** sort.Slice by Path, as an insertion sort. */
  function SortByPath(s: seq<DeviceInfo>): (r: seq<DeviceInfo>)
    ensures |r| == |s|
  {
    if s == [] then [] else Insert(s[0], SortByPath(s[1..]))
  }

  /** The sort's result is ordered by path and holds exactly the same entries. */
  lemma {:induction false} SortByPathCorrect(s: seq<DeviceInfo>)
    ensures SortedByPath(SortByPath(s))
    ensures multiset(SortByPath(s)) == multiset(s)
  {
    if s != [] {
      SortByPathCorrect(s[1..]);
      InsertSorted(s[0], SortByPath(s[1..]));
      InsertPermutes(s[0], SortByPath(s[1..]));
      assert s == [s[0]] + s[1..];
    }
  }

  // ---------------------------------------------------------------------------
  // ListDevices, FindXpadDevices, OpenFirstXpad

  /** The entries of `paths`, in glob order, before sorting. */
  function Described(fs: FileSystem, paths: seq<string>, jsMap: map<string, string>, ledMap: map<string, string>)
    : (infos: seq<DeviceInfo>)
    reads fs
    ensures |infos| == |paths|
    ensures forall i :: 0 <= i < |paths| ==> infos[i] == InfoFor(fs, paths[i], jsMap, ledMap)
  {
    seq(|paths|, i requires 0 <= i < |paths| reads fs => InfoFor(fs, paths[i], jsMap, ledMap))
  }

  /** What ListDevices returns for a filesystem. */
  function Listing(fs: FileSystem): seq<DeviceInfo>
    reads fs
  {
    SortByPath(Described(fs, Glob(fs, EventPattern), JsMap(fs), LedMap(fs)))
  }

  /** ListDevices: the two sibling maps, one entry per event node, sorted by path. */
  method ListDevices(fs: FileSystem) returns (infos: seq<DeviceInfo>)
    ensures infos == Listing(fs)
  {
    var jsMap := MapSysfsDevices(fs, JsPattern, JsDevDir);
    var ledMap := MapSysfsDevices(fs, LedPattern, "");
    var paths := Glob(fs, EventPattern);
    ghost var all := Described(fs, paths, jsMap, ledMap);
    var found: seq<DeviceInfo> := [];
    var i := 0;
    while i < |paths|
      invariant 0 <= i <= |paths|
      invariant found == all[..i]
    {
      var info := Describe(fs, paths[i], jsMap, ledMap);
      assert all[..i + 1] == all[..i] + [all[i]];
      found := found + [info];
      i := i + 1;
    }
    assert all[..i] == all;
    infos := SortByPath(found);
  }

  /** The listing is ordered by path and is a permutation of the node descriptions
      in glob order, one per event node. */
  lemma ListingCorrect(fs: FileSystem)
    ensures SortedByPath(Listing(fs))
    ensures multiset(Listing(fs)) == multiset(Described(fs, Glob(fs, EventPattern), JsMap(fs), LedMap(fs)))
    ensures |Listing(fs)| == |Glob(fs, EventPattern)|
  {
    SortByPathCorrect(Described(fs, Glob(fs, EventPattern), JsMap(fs), LedMap(fs)));
  }

  /** An entry is in the listing exactly when it describes one of the event nodes. */
  lemma ListingMember(fs: FileSystem, info: DeviceInfo)
    ensures info in Listing(fs) <==>
      exists i :: 0 <= i < |Glob(fs, EventPattern)| && info == InfoFor(fs, Glob(fs, EventPattern)[i], JsMap(fs), LedMap(fs))
  {
    var paths := Glob(fs, EventPattern);
    var unsorted := Described(fs, paths, JsMap(fs), LedMap(fs));
    ListingCorrect(fs);
    assert info in Listing(fs) <==> info in unsorted by {
      assert info in Listing(fs) <==> info in multiset(Listing(fs));
      assert info in unsorted <==> info in multiset(unsorted);
    }
    if exists i :: 0 <= i < |paths| && info == InfoFor(fs, paths[i], JsMap(fs), LedMap(fs)) {
      var i :| 0 <= i < |paths| && info == InfoFor(fs, paths[i], JsMap(fs), LedMap(fs));
      assert unsorted[i] == info;
    }
  }

  /** Every entry's sysfs path is its node's name under /sys/class/input, and an LED
      found for it always comes with its brightness file. */
  lemma ListingEntries(fs: FileSystem, info: DeviceInfo)
    requires info in Listing(fs)
    ensures info.sysfsPath == Join(InputClassDir, Base(info.path))
    ensures info.ledBrightnessPath == "" ==> info.ledPath == ""
    ensures info.ledPath != "" ==> info.ledBrightnessPath == Join(info.ledPath, "brightness")
  {
    ListingMember(fs, info);
    var i :| 0 <= i < |Glob(fs, EventPattern)| && info == InfoFor(fs, Glob(fs, EventPattern)[i], JsMap(fs), LedMap(fs));
    InfoForFields(fs, Glob(fs, EventPattern)[i], JsMap(fs), LedMap(fs));
    SysfsDirIsJoin(info.path);
  }

  /** The xpad entries of `s`, in order. */
  function XpadOnly(s: seq<DeviceInfo>): seq<DeviceInfo>
  {
    if s == [] then []
    else XpadOnly(s[..|s| - 1]) + (if IsXpad(s[|s| - 1]) then [s[|s| - 1]] else [])
  }

  /** The filter keeps exactly the xpad entries. */
  lemma {:induction false} XpadOnlyMembers(s: seq<DeviceInfo>, x: DeviceInfo)
    ensures x in XpadOnly(s) <==> x in s && IsXpad(x)
  {
    if s != [] {
      var init := s[..|s| - 1];
      XpadOnlyMembers(init, x);
      assert s == init + [s[|s| - 1]];
    }
  }

  /** The filter keeps the order: a sorted listing stays sorted. */
  lemma {:induction false} XpadOnlySorted(s: seq<DeviceInfo>)
    requires SortedByPath(s)
    ensures SortedByPath(XpadOnly(s))
  {
    if s != [] {
      var init := s[..|s| - 1];
      var last := s[|s| - 1];
      assert SortedByPath(init) by {
        forall i, j | 0 <= i < j < |init| ensures !LexLess(init[j].path, init[i].path) {
          assert init[i] == s[i] && init[j] == s[j];
        }
      }
      XpadOnlySorted(init);
      var f := XpadOnly(init);
      if IsXpad(last) {
        var r := f + [last];
        forall i, j | 0 <= i < j < |r| ensures !LexLess(r[j].path, r[i].path) {
          if j == |f| {
            assert r[i] in XpadOnly(init) by { assert r[i] == f[i]; }
            XpadOnlyMembers(init, r[i]);
            var k :| 0 <= k < |init| && init[k] == r[i];
            assert s[k] == init[k];
          } else {
            assert r[i] == f[i] && r[j] == f[j];
          }
        }
      }
    }
  }

  /** FindXpadDevices: the listing, keeping the entries IsXpad accepts. */
  method FindXpadDevices(fs: FileSystem) returns (filtered: seq<DeviceInfo>)
    ensures filtered == XpadOnly(Listing(fs))
  {
    var infos := ListDevices(fs);
    filtered := [];
    var i := 0;
    while i < |infos|
      invariant 0 <= i <= |infos|
      invariant filtered == XpadOnly(infos[..i])
    {
      assert infos[..i + 1][..i] == infos[..i];
      if IsXpad(infos[i]) {
        filtered := filtered + [infos[i]];
      }
      i := i + 1;
    }
    assert infos[..i] == infos;
  }

  /** The xpad listing is sorted by path and holds exactly the listed xpads. */
  lemma XpadListingCorrect(fs: FileSystem, x: DeviceInfo)
    ensures SortedByPath(XpadOnly(Listing(fs)))
    ensures x in XpadOnly(Listing(fs)) <==> x in Listing(fs) && IsXpad(x)
  {
    ListingCorrect(fs);
    XpadOnlySorted(Listing(fs));
    XpadOnlyMembers(Listing(fs), x);
  }

  /** OpenFirstXpad: ErrNotFound without opening anything when there is no xpad,
      otherwise Open on the xpad with the smallest path. */
  method OpenFirstXpad(fs: FileSystem, open: FileOpen.Opener)
    returns (d: Xpad.Device?, err: MaybeError, attempts: seq<FileOpen.OpenMode>)
    ensures XpadOnly(Listing(fs)) == [] ==> d == null && err == Some(ErrNotFound) && attempts == []
    ensures d != null ==> fresh(d)
    ensures XpadOnly(Listing(fs)) != [] ==> Xpad.Opened(XpadOnly(Listing(fs))[0].path, open, d, err, attempts)
  {
    var infos := FindXpadDevices(fs);
    if |infos| == 0 {
      return null, Some(ErrNotFound), [];
    }
    d, err, attempts := Xpad.Open(infos[0].path, open);
  }
}
