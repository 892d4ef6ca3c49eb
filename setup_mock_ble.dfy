/**
 * `setupMockBLE`: registers the AquaFlush service on a device with four
 * valve characteristics and the admin-mode characteristic.
 */
module SetupMockBLE {
  import opened MockBLE
  import opened Decimal

  const ServiceUUID := "AquaFlush_Service_UUID"
  const AdminModeUUID := "Admin_Mode_UUID"
  const DefaultConfig := "Valve Default Config"

  /** The uuid of the valve characteristic added in round `i` of the loop. */
  function ValveUUID(i: nat): string {
    "Valve" + NatToString(i + 1) + "_UUID"
  }

  /** The characteristics the first `n` rounds of the loop register. */
  function ValveEntries(n: nat): map<string, string> {
    if n == 0 then map[] else ValveEntries(n - 1)[ValveUUID(n - 1) := DefaultConfig]
  }

  /** What the AquaFlush service holds once set up. */
  function SetupContents(): (m: map<string, string>)
    ensures m == map["Valve1_UUID" := DefaultConfig, "Valve2_UUID" := DefaultConfig,
                     "Valve3_UUID" := DefaultConfig, "Valve4_UUID" := DefaultConfig,
                     "Admin_Mode_UUID" := "DISABLED"]
  {
    assert ValveUUID(0) == "Valve1_UUID" && ValveUUID(1) == "Valve2_UUID";
    assert ValveUUID(2) == "Valve3_UUID" && ValveUUID(3) == "Valve4_UUID";
    ValveEntries(4)[AdminModeUUID := "DISABLED"]
  }

  /** The effect of a setup on the contents of a device. */
  function SetupEffect(before: map<string, map<string, string>>): map<string, map<string, string>> {
    before[ServiceUUID := SetupContents()]
  }

  method SetupMockBLE(device: Device)
    modifies device
    ensures ServiceUUID in device.services && fresh(device.services[ServiceUUID])
    ensures device.services == old(device.services)[ServiceUUID := device.services[ServiceUUID]]
    ensures device.services[ServiceUUID].Valid() && device.services[ServiceUUID].Contents() == SetupContents()
    ensures forall c | c in device.services[ServiceUUID].characteristics.Values :: fresh(c)
    ensures device.Contents() == SetupEffect(old(device.Contents()))
  {
    var valveService := device.AddService(ServiceUUID);
    AddCharacteristics(valveService);
    forall u | u in device.services
      ensures device.Contents()[u] == SetupEffect(old(device.Contents()))[u]
    {
      if u != ServiceUUID {
        var s := device.services[u];
        assert s == old(device.services[u]) && s != valveService;
        assert s.characteristics == old(s.characteristics);
        assert s.Contents() == old(s.Contents());
      }
    }
  }

  /** The loop over the four valves, then the admin-mode characteristic. */
  method AddCharacteristics(valveService: Service)
    requires valveService.characteristics == map[]
    modifies valveService
    ensures valveService.Valid() && valveService.Contents() == SetupContents()
    ensures forall c | c in valveService.characteristics.Values :: fresh(c)
  {
    for i := 0 to 4
      invariant valveService.Contents() == ValveEntries(i)
      invariant valveService.Valid()
      invariant forall c | c in valveService.characteristics.Values :: fresh(c)
    {
      ghost var before := valveService.characteristics;
      valveService.AddCharacteristic(ValveUUID(i), DefaultConfig);
      ValuesOfUpdate(before, ValveUUID(i), valveService.characteristics[ValveUUID(i)]);
    }
    ghost var before := valveService.characteristics;
    valveService.AddCharacteristic(AdminModeUUID, "DISABLED");
    ValuesOfUpdate(before, AdminModeUUID, valveService.characteristics[AdminModeUUID]);
  }

  /** A second setup leaves the device as the first one did. */
  lemma SetupIdempotent(before: map<string, map<string, string>>)
    ensures SetupEffect(SetupEffect(before)) == SetupEffect(before)
  {
  }
}
