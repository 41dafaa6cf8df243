# xpad-go in Dafny

A model of the Go library `xpad-go`, which drives Xbox-style game controllers
handled by the Linux `xpad` kernel driver. The model covers the library's own
logic and the exact system calls it makes:

- **ioctl request numbers** (`Ioctl`): the Linux `_IOC` encoding on a 64-bit
  `uint`. `ioctl.Size` is the constant `AnySize` = 16, because it measures the
  `any` interface and not the struct behind it.
- **Kernel wire formats** (`Abi`): the little-endian `input_event` (24 bytes) and
  `js_event` (8 bytes) records, and reads from a byte stream.
- **Device handles** (`Xpad.Device`, `Js.Joystick`): open read-write and fall
  back to read-only (`FileOpen`); close; descriptor access.
- **evdev queries and events** (`Evdev`): names, ids, absolute-axis info, event
  and code bitsets, the grab, effect counts, event reads after waiting with
  `select` (`Wait`), and event writes.
- **Force feedback** (`ForceFeedback`): rumble upload and erase, play and stop,
  gain, autocenter, and the conversion from durations to milliseconds.
- **The joystick API** (`Js`): version, axes, buttons, name, axis and button
  maps, correction, and event reads.
- **Discovery from sysfs** (`Discovery`, `Info`): listing `/dev/input/event*`
  sorted by path, linking joysticks and LEDs, and filtering xpad devices.
- **The LED** (`Leds`) and the driver's **module parameters** (`ModuleParams`),
  both read and written through sysfs files.

Nothing outside the library is executed. The model stands in for the outside
world as follows:

- **System calls**: each is recorded as an `Abi.Syscall` value in a returned
  `calls` list.
- **The kernel's answer** to a call is a parameter (`Reply`, `Option<Errno>`, a
  `Stream` of bytes).
- **The clock and `select`** are functions from the call number to the answer.
- **`os.OpenFile`** is an `Opener` function.
- **The filesystem** is a `SysFs.FileSystem` object. It holds file contents,
  denied writes, symbolic links, resolved links and glob results. `WriteFile`
  changes its `files` map in place.

## Model

| member | source | states |
|---|---|---|
| Ioctl.IOCFields | internal/ioctl/ioctl.go:11-42 | IOC places dir, type, nr and size in their bit fields; each field reads back unchanged; the result fits in 32 bits |
| Ioctl.FieldsIOC | internal/ioctl/ioctl.go:11-42 | every 32-bit request is the IOC of its own four fields |
| Ioctl.IOCAsSum | internal/ioctl/ioctl.go:40-42 | with fields in range, the OR equals dir·2^30 + size·2^16 + type·2^8 + nr |
| Ioctl.OversizedSizeSpills | internal/ioctl/ioctl.go:40-42 | IOC does not mask: a size of 0x4000 spills into the direction bits |
| Ioctl.IO | internal/ioctl/ioctl.go:45-47 | IO is an IOC with direction none and size 0, whose fields read back |
| Ioctl.IOR | internal/ioctl/ioctl.go:50-52 | IOR carries the read direction and the given size |
| Ioctl.IOW | internal/ioctl/ioctl.go:55-57 | IOW carries the write direction and the given size |
| Ioctl.IOWR | internal/ioctl/ioctl.go:60-62 | IOWR carries both direction bits and the given size |
| Ioctl.DirectionBits | internal/ioctl/ioctl.go:11-37 | the direction constants are 0, 1, 2 and 3, and read and write are disjoint bits |
| Ioctl.IOWRIsUnion | internal/ioctl/ioctl.go:50-62 | an IOWR request is the OR of the IOR and IOW requests |
| Abi.FromLEOfLE | evdev_linux.go:207-255 | little-endian decoding inverts encoding for every value that fits the width |
| Abi.LEOfFromLE | evdev_linux.go:207-255 | encoding inverts decoding for every byte sequence |
| Abi.SignedUnsigned | evdev_linux.go:200-205 | two's-complement storage of a signed field reads back the same value |
| Abi.UnsignedSigned | evdev_linux.go:200-205 | reinterpreting the stored bits as signed and back is the identity |
| Abi.EncodeInputEvent | evdev_linux.go:232-255 | an input_event record encodes to exactly 24 bytes |
| Abi.DecodeEncodeInputEvent | evdev_linux.go:207-255 | decoding an encoded input_event gives the same record back |
| Abi.EncodeDecodeInputEvent | evdev_linux.go:207-255 | re-encoding any decoded 24 bytes gives the same bytes |
| Abi.EncodeJsEvent | joystick_linux.go:244-273 | a js_event record encodes to exactly 8 bytes |
| Abi.DecodeEncodeJsEvent | joystick_linux.go:244-273 | decoding an encoded js_event gives the same record back |
| Abi.EncodeDecodeJsEvent | joystick_linux.go:244-273 | re-encoding any decoded 8 bytes gives the same bytes |
| Abi.ReadFull | evdev_linux.go:207-230 | binary.Read gets the first n bytes when the stream has them; otherwise EOF on an empty stream, ErrUnexpectedEOF on a short one, or the read error |
| Abi.KernelFill | evdev_linux.go:162-198 | the buffer the kernel fills keeps its length; bytes beyond the kernel's data stay zero |
| FileOpen.OpenReadWriteOrReadOnly | file_open.go:5-16 | tries read-write first and then read-only; reports read-only exactly when the first try failed; returns the read-only error when both fail |
| Wait.GoQuo | wait_linux.go:47 | Go's truncating quotient: floor for non-negative numerators, 0 for -b < a < 0 |
| Wait.FdSetAsWritten | wait_linux.go:45-52 | the array after the call is MarkAsWritten of the array before it |
| Wait.MarkAsWritten | wait_linux.go:45-52 | the word-by-word effect of fdSet as written keeps the set's size |
| Wait.MarkAsWrittenMinusOne | wait_linux.go:45-52 | as written, fdSet(-1) puts descriptor 63 in an empty set |
| Wait.MarkAsWrittenAgrees | wait_linux.go:45-52 | for non-negative descriptors the code as written agrees with the corrected Mark |
| Wait.FdSet | wait_linux.go:45-52 | the corrected fdSet: the array after the call is Mark of the array before it |
| Wait.Mark | wait_linux.go:45-52 | negative or out-of-range descriptors leave the set unchanged |
| Wait.MarkMembers | wait_linux.go:45-52 | after Mark, j is a member exactly when it was one before, or j is fd and fd fits |
| Wait.MarkIdempotent | wait_linux.go:45-52 | setting the same descriptor twice is the same as setting it once |
| Wait.ReadSet | wait_linux.go:11-43 | the read set passed to select contains fd only |
| Wait.WaitReadable | wait_linux.go:11-43 | every outcome of the wait loop (ready, timeout, select error, EINTR retry) matches the Waited relation over the clock and select answers |
| Wait.WaitedTimeoutsPositive | wait_linux.go:14-29 | with a deadline, every select call gets a positive remaining timeout |
| Wait.NoDeadlineEndsOnSelect | wait_linux.go:14-43 | with a negative timeout, select blocks with no timeout and the wait ends only on a non-EINTR answer |
| Wait.ZeroTimeoutNeverSelects | wait_linux.go:14-29 | a zero timeout with a clock that does not run backwards times out before any select |
| Wait.WaitOutcomes | wait_linux.go:11-43 | success exactly when the last select reports a ready descriptor; a system error is the last select's, and never EINTR |
| Info.IsXpadOccurrence | device_info.go:32-41 | IsXpad holds exactly when the lower-cased driver contains "xpad" or the lower-cased name contains "xpad", "xbox" or "x-box" |
| Info.IsXpadIgnoresCase | device_info.go:32-41 | the answer does not depend on letter case |
| Info.IsXpadNameAndDriverOnly | device_info.go:32-41 | only the name and the driver decide the answer |
| Info.DriverMatches | xpad_test.go:11-20 | the drivers "xpad" and "hid-xpad" are xpad devices |
| Info.NameMatches | xpad_test.go:21-30 | the names "Xbox 360 Controller" and "X-BOX Controller" are xpad devices |
| Info.GenericIsNot | xpad_test.go:31-35 | "Generic Gamepad" with driver "hid-generic" is not an xpad device |
| Info.XboxDriverIsNot | device_info.go:32-41 | "xbox" in the driver alone does not count; only the name is searched for it |
| Xpad.Device.constructor | xpad.go:18-22 | a device holds its path, its open file and its read-only flag |
| Xpad.Open | xpad.go:40-46 | a fresh valid device on the path, holding the file the read-write open gave, or else the read-only one, and read-only exactly when the read-write open failed; or no device and the read-only open's error when both opens fail; the opens tried, in order |
| Xpad.Close | xpad.go:49-57 | closing an open device drops its file, clears read-only and returns the close error; closing a nil or closed device does nothing; afterwards File and FD report ErrClosed |
| Xpad.File | xpad.go:60-65 | the file of an open device, otherwise ErrClosed |
| Xpad.FD | xpad.go:68-73 | the descriptor of an open device, otherwise ErrClosed |
| Xpad.ReadOnly | xpad.go:76-81 | a nil device reports read-only; any other reports its flag |
| Xpad.ClosedNotReadOnly | xpad.go:49-81 | after Close, only a nil device still reports read-only |
| Xpad.OpenDevice | xpad.go:84-86 | the same outcome as Open on the DeviceInfo's path: device, file, read-only flag, error and opens tried |
| Evdev.RequestCodes | evdev_linux.go:17-57 | the EVIOC request numbers the library computes, with ioctl.Size's 16-byte interface size in the size field of the fixed-size requests: e.g. EVIOCGNAME(256) = 0x81004506, EVIOCGID = 0x80104502 and EVIOCGRAB = 0x40104590 |
| Evdev.AbsCodeSpills | evdev_linux.go:49-51 | EVIOCGABS does not mask the code: code 0xc0 carries into the type byte |
| Evdev.BitsetBytes | evdev_linux.go:175-177 | the smallest byte count whose bits cover codes 0..max |
| Evdev.BitsetBytesValues | evdev_linux_test.go:7-23 | bitsetBytes gives 1, 1, 2, 2 and 3 for max 0, 7, 8, 15 and 16 |
| Evdev.BitsetHasExample | evdev_linux_test.go:25-37 | bits {0x10, 0x01} hold codes 4 and 8 but not 5 |
| Evdev.BitsetHasOutside | evdev_linux.go:179-186 | a code beyond the buffer is never reported |
| Evdev.WithCodeHas | evdev_linux.go:179-186 | setting code c adds exactly c, when it fits, to the codes reported |
| Evdev.BitsetOfHas | evdev_linux.go:179-186 | a bitset built from codes reports exactly those codes that fit |
| Evdev.MaxCode | evdev_linux.go:115-134 | only key, abs, ff and led events have a code table |
| Evdev.MaxCodeFillsBuffer | evdev_linux.go:115-134 | each supported table's maximum code fills its buffer exactly |
| Evdev.EventBitset | evdev_linux.go:162-173 | a closed device gives ErrClosed and no ioctl; otherwise one EVIOCGBIT ioctl of bitsetBytes(max) bytes, returning the kernel's bytes or its errno |
| Evdev.EventTypes | evdev_linux.go:101-103 | the event-type bitmap read with EVIOCGBIT(0, 4) |
| Evdev.HasEventType | evdev_linux.go:106-112 | true exactly when the type's bit is set in the 4-byte bitmap; types of 32 and above are never reported |
| Evdev.HasEventCode | evdev_linux.go:115-134 | unsupported types give UnsupportedEventType without an ioctl; otherwise the code's bit in that type's bitmap, and codes above the maximum are never reported |
| Evdev.GetStringIoctl | evdev_linux.go:188-198 | a 256-byte string ioctl: the text up to the last non-zero byte, or the errno |
| Evdev.Name | evdev_linux.go:60-62 | the device name via EVIOCGNAME(256) |
| Evdev.Phys | evdev_linux.go:65-67 | the physical path via EVIOCGPHYS(256) |
| Evdev.Uniq | evdev_linux.go:70-72 | the unique id via EVIOCGUNIQ(256) |
| Evdev.ID | evdev_linux.go:75-85 | the input_id via EVIOCGID, or the errno |
| Evdev.AbsInfo | evdev_linux.go:88-98 | the abs info for one code via EVIOCGABS(code), or the errno |
| Evdev.EffectCount | evdev_linux.go:137-147 | the effect count via EVIOCGEFFECTS, or the errno |
| Evdev.Grab | evdev_linux.go:150-160 | EVIOCGRAB with 1 to grab and 0 to release |
| Evdev.RecordOf | evdev_linux.go:232-255 | a zero event time is replaced by the current time; type, code and value are kept |
| Evdev.EventOf | evdev_linux.go:207-230 | a read record becomes an Event with the same time, type, code and value |
| Evdev.WrittenEventReadsBack | evdev_linux.go:207-255 | an event written to the wire reads back the same, with its time filled in |
| Evdev.WriteInputEvent | evdev_linux.go:232-255 | closed gives ErrClosed; read-only gives ErrReadOnly; otherwise one 24-byte write and the write's error |
| Evdev.SendEvent | xpad.go:97-102 | the same outcome as writeEvent |
| Evdev.ReadInputEvent | evdev_linux.go:207-230 | waits for the descriptor, then reads exactly one 24-byte record, passing on the wait and read errors |
| Evdev.ReadEvent | xpad.go:89-94 | the same outcome as readEvent |
| Evdev.ReadBackWhatWasWritten | evdev_linux.go:207-255 | reading the bytes of a written event returns that event |
| ForceFeedback.NewRumbleEffect | ff_types.go:18-20 | a new rumble effect has id -1, no delay, and the given magnitudes and length |
| ForceFeedback.DurationToMillis | force_feedback_linux.go:143-152 | 0 for durations under 1ms, 0xffff at or above 0xffff ms, otherwise the whole milliseconds |
| ForceFeedback.DurationToMillisMonotone | force_feedback_linux.go:143-152 | longer durations never give fewer milliseconds |
| ForceFeedback.DurationToMillisValues | force_feedback_linux_test.go:10-23 | gives 0 for 0 and -1ms, 42 for 42ms, and 0xffff just past the limit |
| ForceFeedback.EffectCode | force_feedback_linux.go:103-113 | the event code is the 16-bit two's-complement form of the effect id |
| ForceFeedback.Descriptor | force_feedback_linux.go:49-62 | the ff_effect sent for a rumble: the rumble type, the id, replay length and delay in ms, and both magnitudes |
| ForceFeedback.UploadRumble | force_feedback_linux.go:65-87 | closed and read-only devices are refused without an ioctl; otherwise EVIOCSFF with the descriptor, returning the kernel's id or errno |
| ForceFeedback.EraseEffect | force_feedback_linux.go:90-100 | EVIOCRMFF with the id, with the same guards |
| ForceFeedback.FFEvent | force_feedback_linux.go:103-129 | an EV_FF event with the given code and value and no time |
| ForceFeedback.FFEventOnWire | force_feedback_linux.go:103-129 | an EV_FF event decodes from the wire with its code and value intact |
| ForceFeedback.PlayEffect | force_feedback_linux.go:103-108 | writes EV_FF(id, repeat) |
| ForceFeedback.StopEffect | force_feedback_linux.go:111-113 | writes EV_FF(id, 0) |
| ForceFeedback.SetGain | force_feedback_linux.go:116-121 | writes EV_FF(FF_GAIN, value) |
| ForceFeedback.SetAutocenter | force_feedback_linux.go:124-129 | writes EV_FF(FF_AUTOCENTER, value) |
| ForceFeedback.Rumble | force_feedback_linux.go:132-141 | uploads a new rumble effect, then plays it once with its new id; an upload failure stops before the play |
| ForceFeedback.RumbleDescriptor | force_feedback_linux.go:132-152 | the rumble's descriptor has id -1, no delay, and the length in whole ms |
| Js.RequestCodes | joystick_linux.go:17-57 | the JSIOC request numbers the library computes, with ioctl.Size's 16-byte interface size in the size field and JSIOCGNAME's explicit 128: e.g. JSIOCGVERSION = 0x80106a01 and JSIOCGNAME(128) = 0x80806a13 |
| Js.BtnMapLenValue | joystick_linux.go:59-61 | the button map holds 512 entries; the axis map holds 64 |
| Js.Joystick.constructor | joystick_linux.go:64-68 | a joystick holds its path, its open file and its read-only flag |
| Js.OpenJoystick | joystick_linux.go:71-77 | a fresh valid joystick on the path, holding the file the read-write open gave, or else the read-only one, and read-only exactly when the read-write open failed; or no joystick and the read-only open's error when both opens fail; the opens tried, in order |
| Js.Close | joystick_linux.go:80-88 | closes an open joystick and drops its file; a nil or closed one is left alone |
| Js.FD | joystick_linux.go:91-96 | the descriptor of an open joystick, otherwise ErrClosed |
| Js.ReadOnly | joystick_linux.go:99-104 | a nil joystick reports read-only; any other reports its flag |
| Js.Query | joystick_linux.go:107-143 | a closed joystick gives ErrClosed; otherwise one ioctl, returning the kernel's value or errno |
| Js.Version | joystick_linux.go:107-117 | the driver version via JSIOCGVERSION |
| Js.Axes | joystick_linux.go:120-130 | the axis count via JSIOCGAXES |
| Js.Buttons | joystick_linux.go:133-143 | the button count via JSIOCGBUTTONS |
| Js.Name | joystick_linux.go:146-156 | the name via JSIOCGNAME(128), up to the last non-zero byte |
| Js.AxisMap | joystick_linux.go:159-169 | the 64-entry axis map via JSIOCGAXMAP, zero past the kernel's data; a full 64-entry answer, such as the map SetAxisMap sent, is returned unchanged |
| Js.ButtonMap | joystick_linux.go:189-199 | the 512-entry button map via JSIOCGBTNMAP, zero past the kernel's data; a full 512-entry answer, such as the map SetButtonMap sent, is returned unchanged |
| Js.SetGuard | joystick_linux.go:172-216 | a setter proceeds only on an open, writable joystick given a map of the exact length |
| Js.SetAxisMap | joystick_linux.go:172-186 | refuses closed, read-only and wrong-length maps without an ioctl; otherwise one JSIOCSAXMAP call carrying exactly the given map, and the kernel's errno |
| Js.SetButtonMap | joystick_linux.go:202-216 | the same for the 512-entry button map and JSIOCSBTNMAP |
| Js.Correction | joystick_linux.go:219-229 | the correction via JSIOCGCORR |
| Js.SetCorrection | joystick_linux.go:232-241 | refuses closed and read-only joysticks; otherwise sends JSIOCSCORR |
| Js.EventOf | joystick_linux.go:244-273 | a js_event becomes a JoystickEvent with the same fields |
| Js.ReadEvent | joystick_linux.go:244-266 | waits, then reads one 8-byte js_event, passing on the wait and read errors |
| Js.ReadsEncodedEvent | joystick_linux.go:244-273 | reading the bytes of an encoded js_event returns that event |
| Js.OpenJoystickDevice | joystick_linux.go:276-281 | an empty joystick path gives ErrNotFound without an open; otherwise the full OpenJoystick outcome on that path |
| Js.InfoOpenJoystick | joystick_linux.go:284-286 | the same outcome as OpenJoystickDevice: ErrNotFound for an empty joystick path, otherwise the full OpenJoystick outcome |
| SysFs.ReadFile | discovery_linux.go:102-108 | os.ReadFile: the contents, or the errno for a denied path |
| SysFs.WriteFile | led_linux.go:62-70 | os.WriteFile: a denied path gives its errno and no change; otherwise exactly that path is replaced |
| SysFs.Readlink | discovery_linux.go:129-135 | os.Readlink: the link target, or an error when the path is not a link |
| SysFs.EvalSymlinks | discovery_linux.go:137-157 | filepath.EvalSymlinks: the resolved path, or an error |
| SysFs.Glob | discovery_linux.go:24 | filepath.Glob: the matches for a pattern, or none |
| Text.TrimSpaceAround | discovery_linux.go:102-108 | TrimSpace removes exactly the white space around a trimmed text |
| Text.AtoiItoa | led_linux.go:62-87 | Atoi reads back every int64 that Itoa writes |
| Text.BaseOfJoin | discovery_linux.go:31-32 | Base of Join(dir, name) is name |
| Text.DirOfJoin | led_linux.go:20-29 | Dir of Join(dir, name) is dir |
| Text.LexLessTotal | discovery_linux.go:68-70 | any two distinct paths are ordered one way or the other |
| Text.LexLessTransitive | discovery_linux.go:68-70 | the path order is transitive |
| Discovery.ReadTrimmedFile | discovery_linux.go:102-108 | a trimmed text; "" when the file cannot be read |
| Discovery.ReadTrimmedAttribute | discovery_linux.go:102-108 | a sysfs attribute with a trailing newline reads back without it |
| Discovery.ReadHexUint16 | discovery_linux.go:110-127 | unreadable or blank gives none; bare hex is read first; on failure the text is read with base 0 |
| Discovery.Hex4Value | discovery_linux.go:110-127 | four hex digits written by the kernel have the value they encode |
| Discovery.ReadsKernelId | discovery_linux.go:110-127 | an id file such as "045e\n" reads as that value |
| Discovery.ReadsPrefixedHex | discovery_linux.go:119-121 | "0x1f" fails as bare hex and then reads as 31 through base 0 |
| Discovery.OverflowingHexReadsAsDecimal | discovery_linux.go:119-121 | "12345" overflows 16 bits as hex and reads as decimal 12345 |
| Discovery.ReadLinkBase | discovery_linux.go:129-135 | the last element of the link target; "" when the path is not a link |
| Discovery.DriverName | discovery_linux.go:50 | a driver link to .../name gives the driver name |
| Discovery.MapTarget | discovery_linux.go:149-154 | with a device prefix, the prefix joined with the sysfs base name; otherwise the sysfs path |
| Discovery.SysfsMapKeys | discovery_linux.go:137-157 | the map's keys are exactly the resolved device links of the globbed paths |
| Discovery.SysfsMapLastWins | discovery_linux.go:143-155 | when two paths resolve to the same device, the later one wins |
| Discovery.MapSysfsDevices | discovery_linux.go:137-157 | the loop builds exactly the map SysfsMap specifies |
| Discovery.ChildIsJoin | discovery_linux.go:35-61 | attribute paths under the device link are filepath.Join paths |
| Discovery.SysfsDirIsJoin | discovery_linux.go:31-32 | the sysfs path is /sys/class/input joined with the node's base name |
| Discovery.InfoForFields | discovery_linux.go:30-66 | the DeviceInfo built for a node: its path and sysfs path; the joystick and LED found through the resolved device link; the trimmed attributes; the driver; and the ids, or 0 when unreadable |
| Discovery.Describe | discovery_linux.go:30-66 | the loop body builds exactly InfoFor |
| Discovery.InsertSorted | discovery_linux.go:68-70 | inserting into a path-sorted list keeps it sorted |
| Discovery.InsertPermutes | discovery_linux.go:68-70 | inserting adds exactly that element |
| Discovery.SortByPathCorrect | discovery_linux.go:68-70 | the sort's result is ordered by path and is a permutation of its input |
| Discovery.Described | discovery_linux.go:29-66 | one DeviceInfo per globbed event node, in glob order |
| Discovery.ListDevices | discovery_linux.go:14-73 | the loop and sort produce exactly Listing |
| Discovery.ListingCorrect | discovery_linux.go:14-73 | the listing is sorted by path, is a permutation of the described nodes, and has one entry per event node |
| Discovery.ListingMember | discovery_linux.go:14-73 | a DeviceInfo is listed exactly when it describes some globbed event node |
| Discovery.ListingEntries | discovery_linux.go:31-44 | each entry's sysfs path is under /sys/class/input; an LED path comes with its brightness file |
| Discovery.XpadOnlyMembers | discovery_linux.go:76-88 | the filter keeps exactly the xpad devices |
| Discovery.XpadOnlySorted | discovery_linux.go:76-88 | the filter keeps the path order |
| Discovery.FindXpadDevices | discovery_linux.go:76-88 | the loop produces exactly the xpad devices of the listing, in order |
| Discovery.XpadListingCorrect | discovery_linux.go:76-88 | the xpad listing is sorted, and a DeviceInfo is in it exactly when it is listed and IsXpad holds |
| Discovery.OpenFirstXpad | discovery_linux.go:91-100 | no xpad device gives ErrNotFound without an open; otherwise the full Open outcome (device, file, read-only flag, error, opens tried) on the first xpad device of the path-sorted listing |
| Leds.CommandsConsecutive | led_types.go:6-23 | the sixteen LED commands are 0 to 15 in order |
| Leds.AliasesMatch | led_types_test.go:5-24 | each alias equals the command it names |
| Leds.CommandsAreBrightnesses | led_linux.go:57-70 | every command and alias passes SetBrightness's 0 to 15 range check |
| Leds.OpenLED | led_linux.go:20-29 | "" gives ErrNotFound; a path ending in "brightness" is used as is; otherwise "brightness" is joined to it; the LED directory is the brightness file's directory |
| Leds.OpenLEDNamesBrightness | led_linux.go:20-29 | an opened LED's brightness path always ends in "brightness" |
| Leds.OpenLEDSameLed | led_linux.go:20-29 | opening the directory and opening its brightness file give the same LED |
| Leds.OpenLEDDevice | led_linux.go:32-40 | the brightness path is preferred, then the LED path; with neither, ErrNotFound |
| Leds.OpenLEDDeviceOfDiscovered | led_linux.go:32-45 | a discovered LED opens as its LED path and brightness path |
| Leds.Brightness | led_linux.go:73-87 | no LED or no path gives ErrNotFound; otherwise the read error, or Atoi of the trimmed text |
| Leds.BrightnessReadsDecimal | led_linux.go:73-87 | a file holding decimal text and trailing white space reads as that value |
| Leds.SetBrightness | led_linux.go:62-70 | no LED gives ErrNotFound; values outside 0..15 are refused without a write; otherwise the decimal text is written, and a successful write reads back through Brightness |
| Leds.SetCommand | led_linux.go:57-59 | SetBrightness's outcome with the command's value: ErrNotFound or a range error (exactly for commands above 15) with nothing changed; otherwise the denied path's errno, or exactly the brightness file replaced by the decimal text; the other filesystem fields unchanged; on success the command reads back |
| Leds.SetLED | led_linux.go:48-54 | OpenLEDDevice's error with nothing changed; otherwise SetCommand's outcome on that LED's brightness file: a range error, the denied path's errno, or exactly that file replaced; the other filesystem fields unchanged; on success the command reads back |
| ModuleParams.OrderCoversParams | module_params_linux.go:13-41 | the four parameters are read in a fixed order that covers them all; equal fields mean equal settings |
| ModuleParams.ParamPath | module_params_linux.go:102-104 | each parameter lives at /sys/module/xpad/parameters/<name> |
| ModuleParams.ParamPathParts | module_params_linux.go:102-104 | the path's base is the parameter name and its directory is the parameters directory |
| ModuleParams.ParamPathsDistinct | module_params_linux.go:62-104 | different parameters have different files |
| ModuleParams.ParseBool | module_params_linux.go:106-120 | lower-cased y/yes/1/true/on is true and n/no/0/false/off is false; anything else is an error naming the value and the path |
| ModuleParams.TokensUnambiguous | module_params_linux.go:112-119 | no token is both true and false |
| ModuleParams.ParseBoolIgnoresCase | module_params_linux.go:106-120 | case does not change the result |
| ModuleParams.ReadBoolParam | module_params_linux.go:106-120 | a read error is passed on; otherwise the trimmed contents are parsed |
| ModuleParams.ReadBoolParamPadded | module_params_linux.go:106-120 | white space around a token does not change the result |
| ModuleParams.ReadsKernelBool | module_params_linux.go:106-120 | the kernel's "Y\n" and "N\n" read as true and false |
| ModuleParams.ReadsPaddedMixedCase | module_params_linux.go:106-120 | " On\n" reads as true |
| ModuleParams.ReadsUpperCase | module_params_linux.go:106-120 | "FALSE" reads as false |
| ModuleParams.RejectsOtherText | module_params_linux.go:106-120 | empty and "2\n" contents are errors naming the trimmed value |
| ModuleParams.BoolTextParses | module_params_linux.go:122-128 | the text written for a value parses back to that value |
| ModuleParams.WriteBoolParam | module_params_linux.go:122-128 | writes "1" or "0" to the path, with os.WriteFile's outcome |
| ModuleParams.GetParam | module_params_linux.go:62-100 | one parameter's value: its read error, or a bad-value error for unparseable text |
| ModuleParams.GetParamOfWritten | module_params_linux.go:62-128 | a parameter file holding the written text reads back as that value |
| ModuleParams.SetParam | module_params_linux.go:62-100 | writes one parameter; on success it reads back, and the other parameters are unchanged |
| ModuleParams.GetModuleParams | module_params_linux.go:23-41 | all four values when all four read; otherwise the first failing parameter's error, in dpad, triggers, sticks, auto-poweroff order |
| ModuleParams.WrittenHolds | module_params_linux.go:46-60 | after the first k writes, each written file holds its value's text |
| ModuleParams.WrittenKeeps | module_params_linux.go:46-60 | the writes touch no other file |
| ModuleParams.SetModuleParams | module_params_linux.go:46-60 | writes in order and stops at the first refused write with its error; on success GetModuleParams reads back exactly the settings written |

## Left out

- I/O is not performed. System calls, the clock, `select`, `os.OpenFile` and the filesystem are parameters or recorded values, as described above.
- Concurrency is not modelled. Neither is the garbage collector's finaliser.
- The `*_other.go` stubs for non-Linux systems are not part of this model. Neither is `doc.go`.
- `integration_linux_test.go` needs real hardware and is not part of this model.
- `Xpad.Event`'s time is `Zero` or `At(timeval)`. The conversion between `time.Time` and `Timeval` is not modelled.
- `binary.Read` and `binary.Write` are modelled by the explicit little-endian codec in `Abi`.
- The `unsafe` overlay in `setRumble` is modelled as the rumble fields of `ForceFeedback.Descriptor`.
- `ioctl.Call` and `ioctl.CallPtr` are modelled as `Abi.Syscall` records with the kernel's reply as a parameter.
- Whether the kernel accepts the library's request numbers is not modelled. Because `ioctl.Size` measures the 16-byte `any` interface, several fixed-size requests differ from the numbers in `<linux/input.h>` and `<linux/joystick.h>`, which use the struct's size: for example EVIOCGRAB is 0x40104590 here and 0x40044590 there, and JSIOCGVERSION is 0x80106a01 here and 0x80046a01 there. The model keeps the library's numbers.
- `Discovery.SortByPath`: `sort.Slice` sorts in place and is not stable. The model uses a functional insertion sort and proves only "sorted by path" and "a permutation". Which order entries with equal paths end up in is therefore not fixed.
- `Discovery.ListDevices`, `Discovery.FindXpadDevices`, `Discovery.OpenFirstXpad`: `filepath.Glob` fails only on a malformed pattern. The patterns are constants, so the Glob error paths are not modelled.
- `Text.ToLower` folds ASCII letters only. It agrees with Go's `strings.ToLower` on every text it is compared with here.
- `Text.ParseHex16` and `Text.ParseBase0Uint16` do not accept the underscores that `strconv.ParseUint` allows with base 0.
- `Text.Join`, `Text.Base` and `Text.Dir` model `filepath.Join`, `Base` and `Dir` on paths without `.`, `..` or repeated slashes. `Discovery.Child` builds attribute paths as `dir + "/" + name`, which equals `filepath.Join` for those paths (`Discovery.ChildIsJoin`).
- `ModuleParams.GetModuleParams` returns only the error. The zero `ModuleParams{}` that Go returns beside it is not modelled.
- `ModuleParams.GetParam` and `ModuleParams.SetParam` stand for the eight per-parameter getters and setters (`DpadToButtons`, `SetDpadToButtons` and so on), selected by the `Param` value.
- `ModuleParams.WriteBoolParam`, `Leds.SetBrightness`: the file mode 0o644 is not modelled.
- `Leds.SetBrightness` takes an `int64` where Go takes an `int`; on a 64-bit platform they are the same.
- `DeviceInfo.LED()` is `Leds.OpenLEDDevice` itself, so it has no member of its own.
- `Wait.WaitReadable`, `Evdev.ReadInputEvent`, `Evdev.ReadEvent`, `Js.ReadEvent` require that the clock and `select` answers eventually end the wait. The Go loop has no such bound; it relies on the kernel.
- `Wait.WaitReadable` records `select`'s `nfds`, the read set and the remaining time as a duration. The conversion to `syscall.Timeval` is not modelled.
- `Leds.Brightness` covers `strconv.Atoi`'s syntax and range errors only as `SyntaxError` and `RangeError` values. Go's `*NumError` wrapping is not modelled.
- Error texts built with `fmt.Errorf` are modelled as error constructors carrying the same values, not as strings.

## Findings

| source | as written | input that shows it | evidently intended | confidence | as-written member | corrected member |
|---|---|---|---|---|---|---|
| wait_linux.go:45-52 | `idx := fd / 64` truncates toward zero, so every fd from -63 to -1 gets idx 0 and passes the `idx < 0` guard; `uint(fd) % 64` then sets a bit of `Bits[0]` | fd = -1 sets bit 63 of `Bits[0]`, so the set claims descriptor 63 | a negative descriptor leaves the set unchanged | not executed | Wait.MarkAsWrittenMinusOne | Wait.MarkMembers |
