/**
 * One row of the device list: its connected flag, flipped by the
 * connect/disconnect button once the awaited callback resolves, and the
 * calls the row makes to its owner and to navigation.
 */
module DeviceItemComponent {
  import opened Wrappers
  import opened SettingsScreen

  /** A call the row makes. */
  datatype Effect =
    | Connect(device: KnownDevice)
    | Disconnect(device: KnownDevice)
    /** Navigation to the valve control screen with this device name. */
    | NavigateToValveControl(deviceName: Option<string>)
    | Remove(deviceId: string)

  /** The buttons of the removal prompt. */
  datatype Choice = Cancel | Confirm

  class DeviceItem {
    const device: KnownDevice
    var isConnected: bool

    constructor(device: KnownDevice)
      ensures this.device == device && !isConnected
    {
      this.device := device;
      isConnected := false;
    }

    /** The mount effect: the flag takes what `device.isConnected()` resolves to. */
    method CheckConnection(connected: bool)
      modifies this`isConnected
      ensures isConnected == connected
    {
      isConnected := connected;
    }

    /**
     * Disconnects when connected and connects otherwise; `callbackOk` says
     * whether the awaited callback resolved. Only then does the flag flip.
     */
    method HandleConnectDisconnect(callbackOk: bool) returns (effects: seq<Effect>)
      modifies this`isConnected
      ensures old(isConnected) ==> effects == [Disconnect(device)]
      ensures !old(isConnected) ==>
        effects == [Connect(device)] + (if callbackOk then [NavigateToValveControl(device.name)] else [])
      ensures isConnected == (if callbackOk then !old(isConnected) else old(isConnected))
    {
      if isConnected {
        effects := [Disconnect(device)];
        if callbackOk {
          isConnected := false;
        }
      } else {
        effects := [Connect(device)];
        if callbackOk {
          isConnected := true;
          effects := effects + [NavigateToValveControl(device.name)];
        }
      }
    }

    /** Pressing the row: connects first when not connected; never changes the flag. */
    method HandlePress(connectOk: bool) returns (effects: seq<Effect>)
      ensures isConnected ==> effects == [NavigateToValveControl(device.name)]
      ensures !isConnected ==>
        effects == [Connect(device)] + (if connectOk then [NavigateToValveControl(device.name)] else [])
    {
      if isConnected {
        effects := [NavigateToValveControl(device.name)];
      } else {
        effects := [Connect(device)];
        if connectOk {
          effects := effects + [NavigateToValveControl(device.name)];
        }
      }
    }

    /** The removal prompt: only the confirming button removes, by id. */
    method HandleRemove(choice: Choice) returns (effects: seq<Effect>)
      ensures Remove(device.id) in effects <==> choice == Confirm
      ensures choice == Confirm ==> effects == [Remove(device.id)]
      ensures choice == Cancel ==> effects == []
    {
      effects := if choice == Confirm then [Remove(device.id)] else [];
    }
  }

  /** Connecting and then disconnecting, both resolving, ends disconnected, with one call of each. */
  method ConnectThenDisconnect(item: DeviceItem) returns (effects: seq<Effect>)
    requires !item.isConnected
    modifies item
    ensures !item.isConnected
    ensures effects == [Connect(item.device), NavigateToValveControl(item.device.name), Disconnect(item.device)]
  {
    var first := item.HandleConnectDisconnect(true);
    var second := item.HandleConnectDisconnect(true);
    effects := first + second;
  }
}
