/**
 * The settings screen's device bookkeeping: the list of known devices,
 * saved after a successful connection and removed by id, the scan
 * acceptance rule, and the debug switch between the mock and the real
 * BLE manager.
 */
module SettingsScreen {
  import opened Wrappers
  import MockDevice

  /** A known device as the list keeps it: its id and its (nullable) name. */
  datatype KnownDevice = KnownDevice(id: string, name: Option<string>)

  /** The one device the mock BLE manager offers. */
  const MockDeviceID := "ESP32_MOCK_DEVICE"
  const MockDeviceName := "ESP32_Simulator"

  /** The storage keys the screen writes. */
  const DevicesKey := "previousConnectedDevices"
  const DebugModeKey := "DEBUG_MODE"

  datatype ManagerKind = MockManager | RealManager

  /** The ids in list order. */
  function Ids(ds: seq<KnownDevice>): (r: seq<string>)
    ensures |r| == |ds| && forall i | 0 <= i < |r| :: r[i] == ds[i].id
  {
    if ds == [] then [] else [ds[0].id] + Ids(ds[1..])
  }

  /** The ids of a concatenation are the concatenated ids. */
  lemma IdsAppend(a: seq<KnownDevice>, b: seq<KnownDevice>)
    ensures Ids(a + b) == Ids(a) + Ids(b)
  {
    assert forall i | 0 <= i < |a + b| :: Ids(a + b)[i] == (Ids(a) + Ids(b))[i];
  }

  /** `devices.filter(d => d.id !== id)`. */
  function Without(ds: seq<KnownDevice>, id: string): (r: seq<KnownDevice>)
    ensures |r| <= |ds|
    ensures forall d | d in r :: d in ds && d.id != id
    ensures forall d | d in ds && d.id != id :: d in r
  {
    if ds == [] then []
    else if ds[0].id != id then [ds[0]] + Without(ds[1..], id)
    else Without(ds[1..], id)
  }

  /** Removal keeps the list order: it distributes over concatenation. */
  lemma {:induction false} WithoutAppend(a: seq<KnownDevice>, b: seq<KnownDevice>, id: string)
    ensures Without(a + b, id) == Without(a, id) + Without(b, id)
  {
    if a == [] {
      assert a + b == b;
    } else {
      assert (a + b)[1..] == a[1..] + b;
      WithoutAppend(a[1..], b, id);
    }
  }

  /** Removing an id no entry has changes nothing. */
  lemma {:induction false} WithoutAbsent(ds: seq<KnownDevice>, id: string)
    requires id !in Ids(ds)
    ensures Without(ds, id) == ds
  {
    if ds != [] {
      assert Ids(ds)[0] == ds[0].id;
      assert Ids(ds[1..]) == Ids(ds)[1..];
      WithoutAbsent(ds[1..], id);
    }
  }

  /** Removing twice is removing once. */
  lemma WithoutIdempotent(ds: seq<KnownDevice>, id: string)
    ensures Without(Without(ds, id), id) == Without(ds, id)
  {
    var r := Without(ds, id);
    forall i | 0 <= i < |Ids(r)| ensures Ids(r)[i] != id {
      assert r[i] in r;
    }
    WithoutAbsent(r, id);
  }

  /** Saving a device and then removing it leaves the other entries as they were, with any earlier copies gone too. */
  lemma SaveThenRemove(ds: seq<KnownDevice>, d: KnownDevice)
    ensures Without(ds + [d], d.id) == Without(ds, d.id)
  {
    WithoutAppend(ds, [d], d.id);
    assert Without([d], d.id) == [] by {
      assert [d][1..] == [];
    }
  }

  /** The scan callback accepts a device that exists, has a non-empty name and is not yet known. */
  predicate Accepts(scanned: Option<KnownDevice>, ds: seq<KnownDevice>) {
    scanned.Some? && scanned.value.name.Some? && scanned.value.name.value != "" && scanned.value.id !in Ids(ds)
  }

  datatype AddOutcome =
    /** Debug mode, but the mock manager offers no device. */
    | NoMockDevices
    /** Debug mode, and the offered device is already known. */
    | AlreadyAdded
    /** Debug mode: connected to the offered device and saved it. */
    | MockAdded
    /** Real mode: a scan was started; its results arrive through `OnScanResult`. */
    | ScanStarted

  class SettingsScreen {
    var devices: seq<KnownDevice>
    var isDebugMode: bool
    var manager: ManagerKind

    /** The manager in use matches the debug switch. */
    ghost predicate Valid()
      reads this
    {
      manager == (if isDebugMode then MockManager else RealManager)
    }

    /** `debugMode` is the configured default. */
    constructor(debugMode: bool)
      ensures devices == [] && isDebugMode == debugMode && Valid()
    {
      devices := [];
      isDebugMode := debugMode;
      manager := if debugMode then MockManager else RealManager;
    }

    /** `stored` is the parsed stored list; `None` when nothing was stored or the read failed. */
    method LoadSavedDevices(stored: Option<seq<KnownDevice>>)
      modifies this`devices
      ensures stored.Some? ==> devices == stored.value
      ensures stored.None? ==> devices == old(devices)
    {
      if stored.Some? {
        devices := stored.value;
      }
    }

    /** Appends, without removing duplicates; the list is set before it is stored under `DevicesKey`, so a failed store keeps it. */
    method SaveDevice(d: KnownDevice)
      modifies this`devices
      ensures devices == old(devices) + [d]
    {
      devices := devices + [d];
    }

    method RemoveDevice(d: KnownDevice)
      modifies this`devices
      ensures devices == Without(old(devices), d.id)
    {
      devices := Without(devices, d.id);
    }

    /** Saves `d` only when both the connect and the service discovery resolve. */
    method ConnectToDevice(d: KnownDevice, connectOk: bool, discoverOk: bool) returns (saved: bool)
      modifies this`devices
      ensures saved == (connectOk && discoverOk)
      ensures saved ==> devices == old(devices) + [d]
      ensures !saved ==> devices == old(devices)
    {
      saved := false;
      if connectOk && discoverOk {
        SaveDevice(d);
        saved := true;
      }
    }

    /** Connects to a mock peripheral, whose connect and discovery always resolve, and saves it. */
    method ConnectToMock(device: MockDevice.MockDevice)
      modifies this`devices, device`connected
      ensures device.connected
      ensures devices == old(devices) + [KnownDevice(device.id, Some(device.name))]
    {
      var connected := device.Connect();
      var _ := connected.DiscoverAllServicesAndCharacteristics();
      SaveDevice(KnownDevice(device.id, Some(device.name)));
    }

    /**
     * The add button. In debug mode it looks at the current manager's
     * `devices`: `offered` is the mock manager's list, while the real
     * manager's `devices` is a method, not an array, so it offers nothing.
     */
    method AddNewDevice(offered: seq<MockDevice.MockDevice>) returns (o: AddOutcome)
      modifies this`devices, (if offered != [] then {offered[0]} else {})`connected
      ensures !isDebugMode ==> o == ScanStarted && devices == old(devices)
      ensures isDebugMode && (manager == RealManager || offered == []) ==> o == NoMockDevices && devices == old(devices)
      ensures isDebugMode && manager == MockManager && offered != [] && offered[0].id in Ids(old(devices)) ==>
        o == AlreadyAdded && devices == old(devices)
      ensures isDebugMode && manager == MockManager && offered != [] && offered[0].id !in Ids(old(devices)) ==>
        o == MockAdded && offered[0].connected
        && devices == old(devices) + [KnownDevice(offered[0].id, Some(offered[0].name))]
    {
      if isDebugMode {
        if manager == MockManager && offered != [] {
          var mock := offered[0];
          if mock.id !in Ids(devices) {
            ConnectToMock(mock);
            o := MockAdded;
          } else {
            o := AlreadyAdded;
          }
        } else {
          o := NoMockDevices;
        }
      } else {
        o := ScanStarted;
      }
    }

    /** One scan callback; `stopScan` says whether the scan is stopped. */
    method OnScanResult(error: bool, scanned: Option<KnownDevice>, connectOk: bool, discoverOk: bool)
      returns (stopScan: bool)
      modifies this`devices
      ensures stopScan == (!error && Accepts(scanned, old(devices)))
      ensures stopScan && connectOk && discoverOk ==> devices == old(devices) + [scanned.value]
      ensures !(stopScan && connectOk && discoverOk) ==> devices == old(devices)
    {
      stopScan := false;
      if !error && Accepts(scanned, devices) {
        var _ := ConnectToDevice(scanned.value, connectOk, discoverOk);
        stopScan := true;
      }
    }

    /**
     * Flips the switch at once, then stores `"true"` / `"false"` under
     * `DebugModeKey`; `storeOk` says whether that write resolved. Only then
     * is the manager swapped: a rejected write is not caught, so the old
     * manager stays while the switch shows the new mode.
     */
    method ToggleDebugMode(storeOk: bool) returns (stored: string)
      modifies this`isDebugMode, this`manager
      ensures isDebugMode == !old(isDebugMode)
      ensures stored == if isDebugMode then "true" else "false"
      ensures storeOk ==> Valid()
      ensures !storeOk ==> manager == old(manager)
    {
      isDebugMode := !isDebugMode;
      stored := if isDebugMode then "true" else "false";
      if storeOk {
        manager := if isDebugMode then MockManager else RealManager;
      }
    }
  }

  /**
   * Pressing add twice in debug mode with the mock manager's device: the
   * first press saves it, the second finds it already known.
   */
  method AddMockTwice(screen: SettingsScreen, mock: MockDevice.MockDevice) returns (first: AddOutcome, second: AddOutcome)
    requires mock.id == MockDeviceID && mock.name == MockDeviceName
    requires screen.isDebugMode && screen.Valid() && MockDeviceID !in Ids(screen.devices)
    modifies screen`devices, mock`connected
    ensures first == MockAdded && second == AlreadyAdded
    ensures screen.devices == old(screen.devices) + [KnownDevice(MockDeviceID, Some(MockDeviceName))]
  {
    first := screen.AddNewDevice([mock]);
    IdsAppend(old(screen.devices), [KnownDevice(MockDeviceID, Some(MockDeviceName))]);
    second := screen.AddNewDevice([mock]);
  }

  /**
   * Switching to debug mode when the store rejects the write: the switch
   * shows debug mode but the real manager stays, so the add button finds
   * no mock device even though the mock manager would offer one.
   */
  method FailedToggleHidesMock(screen: SettingsScreen, mock: MockDevice.MockDevice) returns (o: AddOutcome)
    requires !screen.isDebugMode && screen.Valid()
    modifies screen`isDebugMode, screen`manager, screen`devices, mock`connected
    ensures screen.isDebugMode && screen.manager == RealManager && !screen.Valid()
    ensures o == NoMockDevices && screen.devices == old(screen.devices)
  {
    var _ := screen.ToggleDebugMode(false);
    o := screen.AddNewDevice([mock]);
  }
}
