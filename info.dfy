/** device_info.go: what discovery reports about one input device, and the test
    that tells whether the xpad driver handles it. */
module Info {
  import opened Types
  import opened Text

  /** DeviceInfo. Paths and strings are empty, and identifiers zero, when unknown. */
  datatype DeviceInfo = DeviceInfo(
    path: string,              // /dev/input/eventX
    sysfsPath: string,         // /sys/class/input/eventX
    devicePath: string,        // the resolved backing device in sysfs
    joystickPath: string,      // the matching /dev/input/jsX
    ledPath: string,           // the xpad LED directory in sysfs
    ledBrightnessPath: string, // its brightness file
    name: string,
    phys: string,
    uniq: string,
    driver: string,
    busType: uint16,
    vendorID: uint16,
    productID: uint16,
    versionID: uint16)

  /** `DeviceInfo{}`. */
  const Blank: DeviceInfo := DeviceInfo("", "", "", "", "", "", "", "", "", "", 0, 0, 0, 0)

  /** IsXpad: the driver mentions "xpad", or the name mentions "xpad", "xbox" or
      "x-box", ignoring case. */
  predicate IsXpad(d: DeviceInfo)
  {
    var driver := ToLower(d.driver);
    if Contains(driver, "xpad") then true
    else
      var name := ToLower(d.name);
      Contains(name, "xpad") || Contains(name, "xbox") || Contains(name, "x-box")
  }

  /** The classification as occurrences: a position of the lower-cased driver where
      "xpad" starts, or a position of the lower-cased name where one of the three
      tokens starts. */
  lemma IsXpadOccurrence(d: DeviceInfo)
    ensures IsXpad(d) <==>
      (exists i :: OccursAt(ToLower(d.driver), "xpad", i))
      || (exists i :: OccursAt(ToLower(d.name), "xpad", i))
      || (exists i :: OccursAt(ToLower(d.name), "xbox", i))
      || (exists i :: OccursAt(ToLower(d.name), "x-box", i))
  {
  }

  lemma LowerIdempotent(s: string)
    ensures ToLower(ToLower(s)) == ToLower(s)
  {
  }

  /** Case does not matter: lower-casing the driver and the name first changes
      nothing. */
  lemma IsXpadIgnoresCase(d: DeviceInfo)
    ensures IsXpad(d.(driver := ToLower(d.driver), name := ToLower(d.name))) == IsXpad(d)
  {
    LowerIdempotent(d.driver);
    LowerIdempotent(d.name);
  }

  /** Only the name and the driver are consulted. */
  lemma IsXpadNameAndDriverOnly(d: DeviceInfo, e: DeviceInfo)
    requires d.name == e.name && d.driver == e.driver
    ensures IsXpad(d) == IsXpad(e)
  {
  }

  /** A string without an 'x' contains none of the tokens, which all start with 'x'. */
  lemma {:induction false} NoOccurrenceWithoutFirst(s: string, sub: string)
    requires sub != [] && forall i :: 0 <= i < |s| ==> s[i] != sub[0]
    ensures !Contains(s, sub)
  {
    forall i ensures !OccursAt(s, sub, i) {
      if 0 <= i && i + |sub| <= |s| {
        assert s[i..i + |sub|][0] == s[i];
      }
    }
  }

  /** A driver of "xpad", or one containing it such as "hid-xpad", is an xpad. */
  lemma DriverMatches(d: DeviceInfo)
    requires d.driver == "xpad" || d.driver == "hid-xpad"
    ensures IsXpad(d)
  {
    if d.driver == "xpad" {
      assert OccursAt(ToLower(d.driver), "xpad", 0);
    } else {
      assert ToLower(d.driver)[4..8] == "xpad";
      assert OccursAt(ToLower(d.driver), "xpad", 4);
    }
  }

  /** "Xbox 360 Controller" and "X-BOX Controller" are xpads whatever the driver. */
  lemma NameMatches(d: DeviceInfo)
    requires d.name == "Xbox 360 Controller" || d.name == "X-BOX Controller"
    ensures IsXpad(d)
  {
    if d.name == "Xbox 360 Controller" {
      assert ToLower(d.name)[0..4] == "xbox";
      assert OccursAt(ToLower(d.name), "xbox", 0);
    } else {
      assert ToLower(d.name)[0..5] == "x-box";
      assert OccursAt(ToLower(d.name), "x-box", 0);
    }
  }

  /** "Generic Gamepad" driven by "hid-generic" is not an xpad. */
  lemma GenericIsNot()
    ensures !IsXpad(Blank.(name := "Generic Gamepad", driver := "hid-generic"))
  {
    var name := ToLower("Generic Gamepad");
    var driver := ToLower("hid-generic");
    assert forall i :: 0 <= i < |name| ==> name[i] != 'x';
    assert forall i :: 0 <= i < |driver| ==> driver[i] != 'x';
    NoOccurrenceWithoutFirst(driver, "xpad");
    NoOccurrenceWithoutFirst(name, "xpad");
    NoOccurrenceWithoutFirst(name, "xbox");
    NoOccurrenceWithoutFirst(name, "x-box");
  }

  /** "xbox" counts only in the name: a driver called "xbox" with a neutral name is
      not an xpad. */
  lemma XboxDriverIsNot()
    ensures !IsXpad(Blank.(name := "Gamepad", driver := "xbox"))
  {
    var name := ToLower("Gamepad");
    assert forall i :: 0 <= i < |name| ==> name[i] != 'x';
    NoOccurrenceWithoutFirst(name, "xpad");
    NoOccurrenceWithoutFirst(name, "xbox");
    NoOccurrenceWithoutFirst(name, "x-box");
    var driver := ToLower("xbox");
    assert driver[0..4][1] == 'b';
    assert forall i :: !OccursAt(driver, "xpad", i);
  }
}
