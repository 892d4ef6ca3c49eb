/**
 * The simulated ESP32 peripheral: a connected flag, an MTU, and a fixed tree
 * of one service with four characteristics whose values are base64 text.
 * Reads and writes answer with freshly built characteristic records and leave
 * the tree alone; only `handleValveControl` rewrites the valve-control value.
 */
module MockDevice {
  import opened Wrappers
  import Utf8
  import Base64
  import opened JsonText

  const ServiceUUID := "12345678-1234-5678-1234-56789abcdef0"
  const ValveControlUUID := "12345678-1234-5678-1234-56789abcdef1"
  const ConfigUUID := "22345678-1234-5678-1234-56789abcdef2"
  const TimerUUID := "42345678-1234-5678-1234-56789abcdef4"
  const AlertUUID := "52345678-1234-5678-1234-56789abcdef5"

  /** `Buffer.from(t).toString('base64')`: base64 of the UTF-8 bytes of `t`. */
  function EncodeText(t: string): string {
    Base64.Encode(Utf8.Encode(t))
  }

  /** `Buffer.from(s, 'base64').toString('utf8')`. */
  function DecodeText(s: string): string {
    Utf8.Decode(Base64.Decode(s))
  }

  /** Decoding text that was encoded gives it back. */
  lemma DecodeEncodeText(t: string)
    ensures DecodeText(EncodeText(t)) == t
  {
    Base64.DecodeEncode(Utf8.Encode(t));
    Utf8.DecodeEncode(t);
  }

  /** `v` is what encoding some text gives. */
  ghost predicate IsTextEncoding(v: string) {
    exists t :: EncodeText(t) == v
  }

  /** Re-encoding the decoded text gives `v` back exactly when `v` is the encoding of some text. */
  lemma ReencodeIffTextEncoding(v: string)
    ensures EncodeText(DecodeText(v)) == v <==> IsTextEncoding(v)
  {
    if IsTextEncoding(v) {
      var t :| EncodeText(t) == v;
      DecodeEncodeText(t);
    }
  }

  /** The text encodings are the base64 encodings (RFC 4648 section 4) of well-formed UTF-8. */
  lemma TextEncodingIffValidUtf8(v: string)
    ensures IsTextEncoding(v) <==> exists b :: Utf8.Valid(b) && Base64.Encode(b) == v
  {
    if IsTextEncoding(v) {
      var t :| EncodeText(t) == v;
      Utf8.DecodeEncode(t);
      assert Utf8.Valid(Utf8.Encode(t)) && Base64.Encode(Utf8.Encode(t)) == v;
    }
    if b :| Utf8.Valid(b) && Base64.Encode(b) == v {
      EncodedUtf8IsTextEncoding(b);
    }
  }

  lemma EncodedUtf8IsTextEncoding(b: seq<Utf8.byte>)
    requires Utf8.Valid(b)
    ensures IsTextEncoding(Base64.Encode(b))
  {
    Utf8.EncodeDecode(b);
    assert EncodeText(Utf8.Decode(b)) == Base64.Encode(b);
  }

  /** Re-encoding is idempotent: a second round leaves the value as the first left it. */
  lemma ReencodeIdempotent(v: string)
    ensures EncodeText(DecodeText(EncodeText(DecodeText(v)))) == EncodeText(DecodeText(v))
  {
    DecodeEncodeText(DecodeText(v));
  }

  datatype Property = Read | Write | Notify

  /**
   * A node of the tree; `onWrite` says whether a write handler is attached.
   * Every value the tree ever holds is the base64 of some text, so a node
   * keeps that text and its value is derived from it.
   */
  datatype Entry = Entry(text: string, properties: seq<Property>, onWrite: bool) {
    function Value(): string {
      EncodeText(text)
    }
  }

  datatype ServiceEntry = ServiceEntry(characteristics: map<string, Entry>)

  /** The data fields of a characteristic record; its function members only throw. */
  datatype BleCharacteristic = BleCharacteristic(
    uuid: string, serviceID: int, serviceUUID: string, deviceID: string,
    isReadable: bool, isWritableWithResponse: bool, isWritableWithoutResponse: bool,
    isNotifiable: bool, isNotifying: bool, value: string, id: int, isIndicatable: bool)

  /** The record every read and write answers with. */
  function Answer(deviceID: string, serviceUUID: string, characteristicUUID: string, value: string): BleCharacteristic {
    BleCharacteristic(characteristicUUID, 1, serviceUUID, deviceID, true, true, true, true, false, value, 0, false)
  }

  /** The configuration the peripheral advertises: four valves on pins 2, 4, 5 and 16. */
  function CreateConfigData(): string {
    EncodeText(ConfigText(Config(4, [2, 4, 5, 16])))
  }

  /** The configuration data reads back as four valves on pins 2, 4, 5 and 16. */
  lemma ConfigDataReadsBack()
    ensures ParseConfig(DecodeText(CreateConfigData())) == Some(Config(4, [2, 4, 5, 16]))
  {
    DecodeEncodeText(ConfigText(Config(4, [2, 4, 5, 16])));
    ParseConfigText(Config(4, [2, 4, 5, 16]));
  }

  /** The timer data: valve 1 at 3000 and valve 2 at 2000, nested under `TIMERS`. */
  function CreateTimerData(): string {
    EncodeText(TimerText([(1, 3000), (2, 2000)]))
  }

  /** The timer data reads back as valve 1 at 3000 and valve 2 at 2000. */
  lemma TimerDataReadsBack()
    ensures ParseTimers(DecodeText(CreateTimerData())) == Some([(1, 3000), (2, 2000)])
  {
    DecodeEncodeText(TimerText([(1, 3000), (2, 2000)]));
    ParseTimersText([(1, 3000), (2, 2000)]);
  }

  lemma UuidsDistinct()
    ensures ValveControlUUID != ConfigUUID && ValveControlUUID != TimerUUID && ValveControlUUID != AlertUUID
    ensures ConfigUUID != TimerUUID && ConfigUUID != AlertUUID && TimerUUID != AlertUUID
  {
    assert ValveControlUUID[0] == '1' && ConfigUUID[0] == '2' && TimerUUID[0] == '4' && AlertUUID[0] == '5';
  }

  /** The one service, holding the four characteristics with the given texts. */
  function ValveService(valve: string, config: string, timer: string, alert: string): (s: ServiceEntry)
    ensures s.characteristics.Keys == {ValveControlUUID, ConfigUUID, TimerUUID, AlertUUID}
    ensures s.characteristics[ValveControlUUID] == Entry(valve, [Read, Write], true)
    ensures s.characteristics[ConfigUUID] == Entry(config, [Read, Notify], false)
    ensures s.characteristics[TimerUUID] == Entry(timer, [Read, Notify], false)
    ensures s.characteristics[AlertUUID] == Entry(alert, [Read, Notify], false)
    ensures forall k | k in s.characteristics && k != ValveControlUUID :: s.characteristics[k].properties == [Read, Notify]
    ensures forall k | k in s.characteristics :: s.characteristics[k].onWrite <==> k == ValveControlUUID
  {
    UuidsDistinct();
    ServiceEntry(map[
      ValveControlUUID := Entry(valve, [Read, Write], true),
      ConfigUUID := Entry(config, [Read, Notify], false),
      TimerUUID := Entry(timer, [Read, Notify], false),
      AlertUUID := Entry(alert, [Read, Notify], false)])
  }

  /** The tree a new device starts with. */
  function InitialServices(): (m: map<string, ServiceEntry>)
    ensures m.Keys == {ServiceUUID}
    ensures var cs := m[ServiceUUID].characteristics;
      && cs.Keys == {ValveControlUUID, ConfigUUID, TimerUUID, AlertUUID}
      && cs[ValveControlUUID].properties == [Read, Write]
      && (forall k | k in cs && k != ValveControlUUID :: cs[k].properties == [Read, Notify])
      && (forall k | k in cs :: cs[k].onWrite <==> k == ValveControlUUID)
  {
    var s := ValveService("OFF", ConfigText(Config(4, [2, 4, 5, 16])), TimerText([(1, 3000), (2, 2000)]), "No alert");
    map[ServiceUUID := s]
  }

  /** What the initial values read back as. */
  lemma InitialValues()
    ensures var cs := InitialServices()[ServiceUUID].characteristics;
      && cs[ConfigUUID].Value() == CreateConfigData()
      && cs[TimerUUID].Value() == CreateTimerData()
      && DecodeText(cs[ValveControlUUID].Value()) == "OFF"
      && ParseConfig(DecodeText(cs[ConfigUUID].Value())) == Some(Config(4, [2, 4, 5, 16]))
      && ParseTimers(DecodeText(cs[TimerUUID].Value())) == Some([(1, 3000), (2, 2000)])
      && DecodeText(cs[AlertUUID].Value()) == "No alert"
  {
    DecodeEncodeText("OFF");
    DecodeEncodeText("No alert");
    ConfigDataReadsBack();
    TimerDataReadsBack();
  }

  /** The tree with the valve-control text replaced. */
  function WithValveControl(services: map<string, ServiceEntry>, text: string): (m: map<string, ServiceEntry>)
    requires HasValveControl(services)
    ensures HasValveControl(m) && m.Keys == services.Keys
    ensures m[ServiceUUID].characteristics.Keys == services[ServiceUUID].characteristics.Keys
    ensures m[ServiceUUID].characteristics[ValveControlUUID].text == text
    ensures forall u | u in m && u != ServiceUUID :: m[u] == services[u]
    ensures forall k | k in m[ServiceUUID].characteristics && k != ValveControlUUID ::
      m[ServiceUUID].characteristics[k] == services[ServiceUUID].characteristics[k]
    ensures m[ServiceUUID].characteristics[ValveControlUUID].properties
         == services[ServiceUUID].characteristics[ValveControlUUID].properties
    ensures m[ServiceUUID].characteristics[ValveControlUUID].onWrite
         == services[ServiceUUID].characteristics[ValveControlUUID].onWrite
  {
    var s := services[ServiceUUID];
    var c := s.characteristics[ValveControlUUID];
    services[ServiceUUID := s.(characteristics := s.characteristics[ValveControlUUID := c.(text := text)])]
  }

  /** The node `handleValveControl` writes to exists. */
  predicate HasValveControl(services: map<string, ServiceEntry>) {
    ServiceUUID in services && ValveControlUUID in services[ServiceUUID].characteristics
  }

  class MockDevice {
    var id: string
    var name: string
    var localName: Option<string>
    var rssi: int
    var mtu: int
    var manufacturerData: Option<string>
    var serviceUUIDs: Option<seq<string>>
    var txPowerLevel: Option<int>
    var solicitedServiceUUIDs: Option<seq<string>>
    var isConnectable: Option<bool>
    var overflowServiceUUIDs: Option<seq<string>>
    var rawScanRecord: string
    var connected: bool
    var services: map<string, ServiceEntry>
    var serviceData: Option<map<string, string>>

    ghost predicate Valid()
      reads this
    {
      HasValveControl(services)
    }

    constructor(id: string, name: string)
      ensures this.id == id && this.name == name
      ensures localName == (if name == "" then None else Some(name))
      ensures rssi == -50 && mtu == 23 && rawScanRecord == "" && !connected
      ensures manufacturerData == None && txPowerLevel == None && solicitedServiceUUIDs == None
      ensures overflowServiceUUIDs == None && serviceData == None
      ensures serviceUUIDs == Some([ServiceUUID]) && isConnectable == Some(true)
      ensures services == InitialServices() && Valid()
    {
      this.id := id;
      this.name := name;
      localName := if name == "" then None else Some(name);
      rssi := -50;
      mtu := 23;
      manufacturerData := None;
      serviceUUIDs := Some([ServiceUUID]);
      txPowerLevel := None;
      solicitedServiceUUIDs := None;
      isConnectable := Some(true);
      overflowServiceUUIDs := None;
      rawScanRecord := "";
      connected := false;
      serviceData := None;
      services := InitialServices();
    }

    method Connect() returns (d: MockDevice)
      modifies this`connected
      ensures connected && d == this
    {
      connected := true;
      d := this;
    }

    /** Changes nothing. */
    method DiscoverAllServicesAndCharacteristics() returns (d: MockDevice)
      ensures d == this
    {
      d := this;
    }

    method CancelConnection() returns (d: MockDevice)
      modifies this`connected
      ensures !connected && d == this
    {
      connected := false;
      d := this;
    }

    /** Changes nothing; the RSSI stays at its initial value. */
    method ReadRSSI() returns (d: MockDevice)
      ensures d == this
    {
      d := this;
    }

    method RequestMTU(m: int) returns (d: MockDevice)
      modifies this`mtu
      ensures mtu == m && d == this
    {
      mtu := m;
      d := this;
    }

    method IsConnected() returns (b: bool)
      ensures b == connected
    {
      b := connected;
    }

    /** Changes nothing. */
    method RequestConnectionPriority(priority: int) returns (d: MockDevice)
      ensures d == this
    {
      d := this;
    }

    /** Always answers with the text `Mock Value`, whatever the tree holds. */
    method ReadCharacteristicForService(serviceUUID: string, characteristicUUID: string) returns (c: BleCharacteristic)
      ensures c.uuid == characteristicUUID && c.serviceUUID == serviceUUID && c.deviceID == id
      ensures c.value == EncodeText("Mock Value")
      ensures DecodeText(c.value) == "Mock Value"
    {
      DecodeEncodeText("Mock Value");
      c := Answer(id, serviceUUID, characteristicUUID, EncodeText("Mock Value"));
    }

    /** Echoes the written value; the tree is not touched and no write handler runs. */
    method WriteCharacteristicWithResponseForService(serviceUUID: string, characteristicUUID: string, value: string)
      returns (c: BleCharacteristic)
      ensures c.uuid == characteristicUUID && c.serviceUUID == serviceUUID && c.deviceID == id
      ensures c.value == value
    {
      c := Answer(id, serviceUUID, characteristicUUID, value);
    }

    /** Echoes the written value; the tree is not touched and no write handler runs. */
    method WriteCharacteristicWithoutResponseForService(serviceUUID: string, characteristicUUID: string, value: string)
      returns (c: BleCharacteristic)
      ensures c.uuid == characteristicUUID && c.serviceUUID == serviceUUID && c.deviceID == id
      ensures c.value == value
    {
      c := Answer(id, serviceUUID, characteristicUUID, value);
    }

    /**
     * Calls the listener once, at once, with no error and no characteristic;
     * returns what the listener receives.
     */
    method MonitorCharacteristicForService(serviceUUID: string, characteristicUUID: string)
      returns (error: Option<string>, characteristic: Option<BleCharacteristic>)
      ensures error == None && characteristic == None
    {
      error, characteristic := None, None;
    }

    /** Stores the re-encoded decoding of `value` as the valve-control value. */
    method HandleValveControl(value: string)
      requires Valid()
      modifies this`services
      ensures Valid()
      ensures services == WithValveControl(old(services), DecodeText(value))
      ensures services[ServiceUUID].characteristics[ValveControlUUID].Value() == EncodeText(DecodeText(value))
      ensures services[ServiceUUID].characteristics[ValveControlUUID].Value() == value <==> IsTextEncoding(value)
    {
      var decodedValue := DecodeText(value);
      services := WithValveControl(services, decodedValue);
      ReencodeIffTextEncoding(value);
    }
  }
}
