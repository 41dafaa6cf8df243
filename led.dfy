/** led_linux.go and led_types.go: the xpad LED as a sysfs `brightness` file, the
    0..15 commands the driver accepts, and writing and reading them as decimal text. */
module Leds {
  import opened Types
  import opened Text
  import opened SysFs
  import opened Info

  // ---------------------------------------------------------------------------
  // LED commands (led_types.go)

  /** LEDCommand: a pattern number as the driver defines it. */
  type LedCommand = uint8

  const LEDOff: LedCommand := 0
  const LEDAllBlink: LedCommand := 1
  const LEDPlayer1Flash: LedCommand := 2
  const LEDPlayer2Flash: LedCommand := 3
  const LEDPlayer3Flash: LedCommand := 4
  const LEDPlayer4Flash: LedCommand := 5
  const LEDPlayer1: LedCommand := 6
  const LEDPlayer2: LedCommand := 7
  const LEDPlayer3: LedCommand := 8
  const LEDPlayer4: LedCommand := 9
  const LEDRotate1: LedCommand := 10
  const LEDRotate2: LedCommand := 11
  const LEDRotate3: LedCommand := 12
  const LEDRotate4: LedCommand := 13
  const LEDBlinkFast: LedCommand := 14
  const LEDBlinkSlow: LedCommand := 15

  /** The driver's alternative names for commands 10 to 15. */
  const LEDRotate: LedCommand := 10
  const LEDBlinkPrevious: LedCommand := 11
  const LEDBlinkSlowPrevious: LedCommand := 12
  const LEDRotateDual: LedCommand := 13
  const LEDBlinkAllSlow: LedCommand := 14
  const LEDBlinkOnce: LedCommand := 15

  /** The sixteen primary commands in declaration order. */
  const Commands: seq<LedCommand> := [
    LEDOff, LEDAllBlink, LEDPlayer1Flash, LEDPlayer2Flash, LEDPlayer3Flash, LEDPlayer4Flash,
    LEDPlayer1, LEDPlayer2, LEDPlayer3, LEDPlayer4,
    LEDRotate1, LEDRotate2, LEDRotate3, LEDRotate4, LEDBlinkFast, LEDBlinkSlow]

  /** The aliases, each next to the primary command it names. */
  const Aliases: seq<(LedCommand, LedCommand)> := [
    (LEDRotate, LEDRotate1), (LEDBlinkPrevious, LEDRotate2), (LEDBlinkSlowPrevious, LEDRotate3),
    (LEDRotateDual, LEDRotate4), (LEDBlinkAllSlow, LEDBlinkFast), (LEDBlinkOnce, LEDBlinkSlow)]

  /** The primary commands number the patterns 0 to 15 without gaps. */
  lemma CommandsConsecutive()
    ensures |Commands| == 16
    ensures forall i :: 0 <= i < |Commands| ==> Commands[i] == i
  {
  }

  /** Each alias is the same number as its primary command. */
  lemma AliasesMatch()
    ensures forall i :: 0 <= i < |Aliases| ==> Aliases[i].0 == Aliases[i].1
  {
  }

  /** Every named command, primary or alias, is a brightness the LED accepts. */
  lemma CommandsAreBrightnesses()
    ensures forall i :: 0 <= i < |Commands| ==> InRange(Commands[i])
    ensures forall i :: 0 <= i < |Aliases| ==> InRange(Aliases[i].0)
  {
  }

  // ---------------------------------------------------------------------------
  // Opening (led_linux.go)

  /** LED: the LED directory and its brightness file. */
  datatype Led = Led(path: string, brightnessPath: string)

  const BrightnessFile: string := "brightness"

  /** OpenLED: the path may name the LED directory or its brightness file; the
      brightness file is the path itself when its last element is `brightness`, and
      the directory is what contains it. */
  function OpenLED(path: string): (r: Result<Led>)
    ensures r.Err? <==> path == ""
    ensures r.Err? ==> r.error == ErrNotFound
    ensures r.Ok? ==> r.value.brightnessPath != "" && r.value.path == Dir(r.value.brightnessPath)
    ensures r.Ok? && Base(path) == BrightnessFile ==> r.value.brightnessPath == path
    ensures r.Ok? && Base(path) != BrightnessFile ==> r.value.brightnessPath == Join(path, BrightnessFile)
  {
    if path == "" then Err(ErrNotFound)
    else
      var brightness := if Base(path) != BrightnessFile then Join(path, BrightnessFile) else path;
      Ok(Led(Dir(brightness), brightness))
  }

  /** Whatever path it is given, OpenLED's brightness file is named `brightness`. */
  lemma OpenLEDNamesBrightness(path: string)
    requires path != ""
    ensures Base(OpenLED(path).value.brightnessPath) == BrightnessFile
  {
    if Base(path) != BrightnessFile {
      BaseOfJoin(path, BrightnessFile);
    }
  }

  /** An LED directory and its brightness file open the same LED: the directory and
      the file inside it. */
  lemma OpenLEDSameLed(dir: string)
    requires dir != [] && dir[|dir| - 1] != '/' && Base(dir) != BrightnessFile
    ensures OpenLED(dir) == OpenLED(Join(dir, BrightnessFile)) == Ok(Led(dir, Join(dir, BrightnessFile)))
  {
    BaseOfJoin(dir, BrightnessFile);
    DirOfJoin(dir, BrightnessFile);
  }

  /** OpenLEDDevice (and DeviceInfo.LED): ErrNotFound when discovery found no LED,
      otherwise OpenLED on the brightness file if known, else on the directory. */
  function OpenLEDDevice(info: DeviceInfo): (r: Result<Led>)
    ensures info.ledBrightnessPath == "" && info.ledPath == "" ==> r == Err(ErrNotFound)
    ensures info.ledBrightnessPath != "" ==> r == OpenLED(info.ledBrightnessPath) && r.Ok?
    ensures info.ledBrightnessPath == "" && info.ledPath != "" ==> r == OpenLED(info.ledPath) && r.Ok?
  {
    if info.ledBrightnessPath == "" && info.ledPath == "" then Err(ErrNotFound)
    else if info.ledBrightnessPath != "" then OpenLED(info.ledBrightnessPath)
    else OpenLED(info.ledPath)
  }

  /** For an entry that discovery gave an LED directory (written without a trailing
      slash), the LED opened is that directory and the brightness file inside it. */
  lemma OpenLEDDeviceOfDiscovered(info: DeviceInfo)
    requires info.ledPath != "" && info.ledPath[|info.ledPath| - 1] != '/'
    requires info.ledBrightnessPath == Join(info.ledPath, BrightnessFile)
    ensures OpenLEDDevice(info) == Ok(Led(info.ledPath, info.ledBrightnessPath))
  {
    BaseOfJoin(info.ledPath, BrightnessFile);
    DirOfJoin(info.ledPath, BrightnessFile);
  }

  // ---------------------------------------------------------------------------
  // Brightness

  predicate InRange(value: int) { 0 <= value <= 15 }

  /** Brightness: the brightness file's text, trimmed, as a decimal int; ErrNotFound
      for a missing LED, the filesystem's error for an unreadable file, and Atoi's
      error for text that is not a number. */
  function Brightness(fs: FileSystem, l: Option<Led>): (r: Result<int>)
    reads fs
    ensures (l.None? || l.value.brightnessPath == "") ==> r == Err(ErrNotFound)
    ensures l.Some? && l.value.brightnessPath != "" && ReadFile(fs, l.value.brightnessPath).Err? ==>
      r == Err(ReadFile(fs, l.value.brightnessPath).error)
    ensures l.Some? && l.value.brightnessPath != "" && ReadFile(fs, l.value.brightnessPath).Ok? ==>
      r == Atoi(TrimSpace(ReadFile(fs, l.value.brightnessPath).value))
  {
    if l.None? || l.value.brightnessPath == "" then Err(ErrNotFound)
    else
      match ReadFile(fs, l.value.brightnessPath)
      case Err(e) => Err(e)
      case Ok(data) => Atoi(TrimSpace(data))
  }

  /** A brightness file holding decimal text, with or without a trailing newline,
      reads back as that number. */
  lemma BrightnessReadsDecimal(fs: FileSystem, l: Led, v: int64, post: string)
    requires l.brightnessPath != ""
    requires ReadFile(fs, l.brightnessPath) == Ok(Itoa(v) + post) && AllSpace(post)
    ensures Brightness(fs, Some(l)) == Ok(v)
  {
    assert Itoa(v) + post == [] + Itoa(v) + post;
    TrimSpaceAround([], Itoa(v), post);
    AtoiItoa(v);
  }

  /** SetBrightness: ErrNotFound for a missing LED, a range error outside 0..15,
      and otherwise the value written to the brightness file in decimal. Nothing is
      written unless both checks pass. */
  method SetBrightness(fs: FileSystem, l: Option<Led>, value: int64) returns (err: MaybeError)
    modifies fs
    ensures (l.None? || l.value.brightnessPath == "") ==> err == Some(ErrNotFound) && unchanged(fs)
    ensures l.Some? && l.value.brightnessPath != "" && !InRange(value) ==>
      err == Some(BrightnessRange(value)) && unchanged(fs)
    ensures l.Some? && l.value.brightnessPath != "" && InRange(value) ==>
      var path := l.value.brightnessPath;
      && (path in old(fs.denied) ==> err == Some(Sys(old(fs.denied)[path])) && fs.files == old(fs.files))
      && (path !in old(fs.denied) ==> err == None && fs.files == old(fs.files)[path := Itoa(value)])
      && fs.denied == old(fs.denied) && fs.links == old(fs.links)
      && fs.resolved == old(fs.resolved) && fs.globs == old(fs.globs)
    ensures err.None? ==> l.Some? && Brightness(fs, l) == Ok(value)
  {
    if l.None? || l.value.brightnessPath == "" {
      return Some(ErrNotFound);
    }
    if value < 0 || value > 15 {
      return Some(BrightnessRange(value));
    }
    err := WriteFile(fs, l.value.brightnessPath, Itoa(value));
    if err.None? {
      assert Itoa(value) + "" == Itoa(value);
      BrightnessReadsDecimal(fs, l.value, value, "");
    }
  }

  /** SetCommand: SetBrightness with the command's number, so only a command above 15
      is out of range. */
  method SetCommand(fs: FileSystem, l: Option<Led>, cmd: LedCommand) returns (err: MaybeError)
    modifies fs
    ensures (l.None? || l.value.brightnessPath == "") ==> err == Some(ErrNotFound) && unchanged(fs)
    ensures l.Some? && l.value.brightnessPath != "" ==> (err == Some(BrightnessRange(cmd)) <==> cmd > 15)
    ensures l.Some? && l.value.brightnessPath != "" && cmd > 15 ==> unchanged(fs)
    ensures l.Some? && l.value.brightnessPath != "" && cmd <= 15 ==>
      var path := l.value.brightnessPath;
      && (path in old(fs.denied) ==> err == Some(Sys(old(fs.denied)[path])) && fs.files == old(fs.files))
      && (path !in old(fs.denied) ==> err == None && fs.files == old(fs.files)[path := Itoa(cmd)])
    ensures fs.denied == old(fs.denied) && fs.links == old(fs.links)
    ensures fs.resolved == old(fs.resolved) && fs.globs == old(fs.globs)
    ensures err.None? ==> Brightness(fs, l) == Ok(cmd)
  {
    err := SetBrightness(fs, l, cmd);
  }

  /** DeviceInfo.SetLED: opens the device's LED, then sets the command. */
  method SetLED(fs: FileSystem, info: DeviceInfo, cmd: LedCommand) returns (err: MaybeError)
    modifies fs
    ensures OpenLEDDevice(info).Err? ==> err == Some(OpenLEDDevice(info).error) && unchanged(fs)
    ensures OpenLEDDevice(info).Ok? && cmd > 15 ==> err == Some(BrightnessRange(cmd)) && unchanged(fs)
    ensures OpenLEDDevice(info).Ok? && cmd <= 15 ==>
      var path := OpenLEDDevice(info).value.brightnessPath;
      && (path in old(fs.denied) ==> err == Some(Sys(old(fs.denied)[path])) && fs.files == old(fs.files))
      && (path !in old(fs.denied) ==> err == None && fs.files == old(fs.files)[path := Itoa(cmd)])
    ensures fs.denied == old(fs.denied) && fs.links == old(fs.links)
    ensures fs.resolved == old(fs.resolved) && fs.globs == old(fs.globs)
    ensures err.None? ==> Brightness(fs, Some(OpenLEDDevice(info).value)) == Ok(cmd)
  {
    var led := OpenLEDDevice(info);
    if led.Err? {
      return Some(led.error);
    }
    err := SetCommand(fs, Some(led.value), cmd);
  }
}
