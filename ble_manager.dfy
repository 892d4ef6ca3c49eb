/**
 * `connectToBLEService`: in development it runs the setup, then looks the
 * service up, reads `Valve1_UUID` and enables admin mode. The setup fills the
 * device instance declared in `setupMockBLE.ts`, while the lookup goes to the
 * separate instance exported by `MockBLE.ts`.
 */
module BLEManager {
  import opened MockBLE
  import opened SetupMockBLE

  /** The two module-level device instances. */
  class BleModules {
    /** `mockBLEDevice` exported by `MockBLE.ts`, the one the lookup uses. */
    const mockBLEDevice: Device
    /** `mockBLEDevice` declared in `setupMockBLE.ts`, the one the setup fills. */
    const setupInstance: Device

    constructor()
      ensures fresh(mockBLEDevice) && fresh(setupInstance) && mockBLEDevice != setupInstance
      ensures mockBLEDevice.services == map[] && setupInstance.services == map[]
    {
      mockBLEDevice := new Device();
      setupInstance := new Device();
    }
  }

  datatype Outcome =
    | NotDevelopment
    | ServiceNotFound
    /** The service was found; the Valve1 value read (if `hasValve1`), and whether admin mode was written. */
    | ServiceFound(valve1: string, hasValve1: bool, adminEnabled: bool)

  /** The admin-mode characteristic of a service, if it has one. */
  function AdminOf(s: Service): set<Characteristic>
    reads s
  {
    if AdminModeUUID in s.characteristics then {s.characteristics[AdminModeUUID]} else {}
  }

  /** The admin-mode characteristic the call would write, if the service exists and has one. */
  function AdminTarget(d: Device, serviceUUID: string): set<Characteristic>
    reads d, d.services.Values
  {
    if serviceUUID in d.services then AdminOf(d.services[serviceUUID]) else {}
  }

  /** Reads `Valve1_UUID`, then writes `ENABLE` to the admin-mode characteristic and notifies. */
  method UseService(service: Service) returns (o: Outcome)
    modifies AdminOf(service)
    ensures var before := old(service.Contents());
      o == ServiceFound(if "Valve1_UUID" in before then before["Valve1_UUID"] else "",
                        "Valve1_UUID" in before, AdminModeUUID in before)
    ensures forall c | c in AdminOf(service) :: c.value == "ENABLE"
  {
    var valve1 := "";
    var valveCharacteristic := service.GetCharacteristic("Valve1_UUID");
    if valveCharacteristic != null {
      valve1 := valveCharacteristic.Read();
    }
    var adminModeCharacteristic := service.GetCharacteristic(AdminModeUUID);
    if adminModeCharacteristic != null {
      adminModeCharacteristic.Write("ENABLE");
      adminModeCharacteristic.Notify();
    }
    o := ServiceFound(valve1, valveCharacteristic != null, adminModeCharacteristic != null);
  }

  /** `getService` on `device`, then the reads and writes on the service if it is there. */
  method LookUp(device: Device, serviceUUID: string) returns (o: Outcome)
    modifies AdminTarget(device, serviceUUID)
    ensures serviceUUID !in old(device.services) ==> o == ServiceNotFound && device.Contents() == old(device.Contents())
    ensures serviceUUID in old(device.services) ==>
      var before := old(device.services[serviceUUID].Contents());
      o == ServiceFound(if "Valve1_UUID" in before then before["Valve1_UUID"] else "",
                        "Valve1_UUID" in before, AdminModeUUID in before)
      && forall c | c in old(AdminTarget(device, serviceUUID)) :: c.value == "ENABLE"
  {
    var service := device.GetService(serviceUUID);
    if service != null {
      o := UseService(service);
    } else {
      o := ServiceNotFound;
    }
  }

  method ConnectToBLEService(m: BleModules, nodeEnv: string, serviceUUID: string) returns (o: Outcome)
    requires m.mockBLEDevice != m.setupInstance
    modifies m.setupInstance, AdminTarget(m.mockBLEDevice, serviceUUID)
    ensures nodeEnv != "development" ==>
      o == NotDevelopment && m.setupInstance.services == old(m.setupInstance.services)
      && m.mockBLEDevice.Contents() == old(m.mockBLEDevice.Contents())
    ensures nodeEnv == "development" ==>
      ServiceUUID in m.setupInstance.services && fresh(m.setupInstance.services[ServiceUUID])
      && m.setupInstance.services == old(m.setupInstance.services)[ServiceUUID := m.setupInstance.services[ServiceUUID]]
      && m.setupInstance.services[ServiceUUID].Contents() == SetupContents()
    ensures nodeEnv == "development" && serviceUUID !in old(m.mockBLEDevice.services) ==>
      o == ServiceNotFound && m.mockBLEDevice.Contents() == old(m.mockBLEDevice.Contents())
    ensures nodeEnv == "development" && serviceUUID in old(m.mockBLEDevice.services) ==>
      var before := old(m.mockBLEDevice.services[serviceUUID].Contents());
      o == ServiceFound(if "Valve1_UUID" in before then before["Valve1_UUID"] else "",
                        "Valve1_UUID" in before, AdminModeUUID in before)
      && forall c | c in old(AdminTarget(m.mockBLEDevice, serviceUUID)) :: c.value == "ENABLE"
  {
    if nodeEnv == "development" {
      SetupMockBLE.SetupMockBLE(m.setupInstance);
      assert m.mockBLEDevice.Contents() == old(m.mockBLEDevice.Contents());
      ghost var setupService := m.setupInstance.services[ServiceUUID];
      assert setupService.characteristics.Values !! AdminTarget(m.mockBLEDevice, serviceUUID);
      o := LookUp(m.mockBLEDevice, serviceUUID);
    } else {
      o := NotDevelopment;
    }
  }

  /**
   * From the start of the program, the development path never finds a
   * service: the lookup goes to the instance the setup did not fill.
   */
  method ConnectAtStartup(serviceUUID: string) returns (o: Outcome)
    ensures o == ServiceNotFound
  {
    var m := new BleModules();
    o := ConnectToBLEService(m, "development", serviceUUID);
  }
}
